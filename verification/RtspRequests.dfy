/** Which requests the parser reads back exactly, and what it makes of the others. */
module RtspRequests {
  import opened Rtsp

  /** How the path is led in: by a URL with "rtsp://" and the host with its port, by "rtsp:/" alone, or by
      a single blank, as in a request that is no URL. The scheme may be in capitals or not. */
  datatype Target =
    | Url(gap: string, scheme: string, host: string)
    | Short(gap: string, scheme: string)
    | Plain(blank: char)

  /** A request: method, target, the two parts of the path, spaces, what is between "RTSP/" and the sequence
      number, blanks, the number, the end of its line, and whatever follows. */
  datatype Request = Request(
    name: string, target: Target, pre: string, suf: string, spaces: string, headers: string, blanks: string,
    cseq: string, end: char, tail: string)

  function Path(r: Request): string {
    if r.pre == "" then r.suf else r.pre + "/" + r.suf
  }

  // The request up to each of its parts, sections 6.1 and 12.17 of RFC 2326.

  function Lead(t: Target): string {
    match t
    case Url(gap, scheme, host) => gap + scheme + "://" + host
    case Short(gap, scheme) => gap + scheme + ":"
    case Plain(_) => ""
  }

  function ToHost(r: Request): string {
    r.name + Lead(r.target)
  }

  /** The character in front of the path. */
  function Separator(t: Target): char {
    if t.Plain? then t.blank else '/'
  }

  function ToSlash(r: Request): string {
    ToHost(r) + [Separator(r.target)]
  }

  function ToPath(r: Request): string {
    ToSlash(r) + Path(r)
  }

  function ToSpaces(r: Request): string {
    ToPath(r) + r.spaces
  }

  function ToLine(r: Request): string {
    ToSpaces(r) + "RTSP/"
  }

  function ToHeaders(r: Request): string {
    ToLine(r) + r.headers
  }

  function ToWord(r: Request): string {
    ToHeaders(r) + "CSeq:"
  }

  function ToNumber(r: Request): string {
    ToWord(r) + r.blanks
  }

  function ToValue(r: Request): string {
    ToNumber(r) + r.cseq
  }

  function Core(r: Request): string {
    ToValue(r) + [r.end]
  }

  function Print(r: Request): string {
    Core(r) + r.tail
  }

  predicate IsScheme(s: string) {
    |s| == 4 && Fold(s[0]) == 'r' && Fold(s[1]) == 't' && Fold(s[2]) == 's' && Fold(s[3]) == 'p'
  }

  predicate IsGap(s: string) {
    s != "" && forall k | 0 <= k < |s| :: s[k] in BLANK
  }

  predicate TargetOk(r: Request) {
    match r.target
    case Url(gap, scheme, host) => IsGap(gap) && IsScheme(scheme) && '/' !in host && ' ' !in host
    case Short(gap, scheme) => IsGap(gap) && IsScheme(scheme) && (Path(r) == "" || Path(r)[0] != '/')
    case Plain(blank) => blank in BLANK && Path(r) != ""
  }

  predicate PathOk(r: Request) {
    && '/' !in r.suf && (r.suf != "" ==> r.suf[|r.suf| - 1] != ' ')
    && !Contains(Path(r), "RTSP/")
    && r.spaces != "" && forall k | 0 <= k < |r.spaces| :: r.spaces[k] == ' '
  }

  predicate NumberOk(r: Request) {
    && !Contains(r.headers, "CSeq:")
    && (forall k | 0 <= k < |r.blanks| :: r.blanks[k] in BLANK)
    && '\r' !in r.cseq && '\n' !in r.cseq && (r.cseq != "" ==> r.cseq[0] !in BLANK)
    && (r.end == '\r' || r.end == '\n')
  }

  /** What the fields must not hold. */
  predicate Shaped(r: Request) {
    r.name != "" && (forall c | c in r.name :: c !in BLANK) && TargetOk(r) && PathOk(r) && NumberOk(r)
  }

  /** How long they may be. */
  predicate FieldsFit(r: Request) {
    && |r.name| < PARAM_MAX - 1 && |r.pre| < PARAM_MAX && |r.suf| < PARAM_MAX && |r.cseq| < PARAM_MAX - 1
  }

  predicate WellFormed(r: Request) {
    Shaped(r) && FieldsFit(r) && NUL !in r.name && NUL !in r.pre && NUL !in r.suf && NUL !in r.cseq
  }

  /** A request that is no URL holds no scheme further on, either, that the parser would take for one. */
  predicate NoScheme(text: string, r: Request, size: nat) {
    r.target.Plain? ==> forall k: nat | |r.name| < k && k + 9 <= size && size <= |text| :: !SchemeAt(text, k)
  }

  // ---------- What a request means ----------

  function HostOf(t: Target): string {
    if t.Url? then t.host else ""
  }

  /** The first n characters, or all. */
  function Most(text: string, n: nat): (t: string)
    ensures t <= text && (|t| == n || (|t| < n && t == text))
  {
    if |text| <= n then text else text[..n]
  }

  /** Which of the fields are taken over, and whether the request is accepted, when the ports and the
      command are in t already: each field has to fit its buffer, and the members are set one after the
      other until one does not. */
  function Taken(t: Session, r: Request): (o: Outcome)
    requires |HostOf(r.target)| <= |t.hostPort|
    ensures |o.session.hostPort| == |t.hostPort|
  {
    var u := t.(hostPort := Overwrite(t.hostPort, HostOf(r.target)));
    if |r.suf| >= PARAM_MAX then Outcome(false, u)
    else if |r.pre| >= PARAM_MAX then Outcome(false, u.(suffix := CString(r.suf)))
    else
      Outcome(|r.cseq| < PARAM_MAX - 1,
              u.(suffix := CString(r.suf), preSuffix := CString(r.pre), cseq := CString(Most(r.cseq, PARAM_MAX - 1))))
  }

  // ---------- Searching in texts put together ----------

  lemma Piece(s: string, a: string, b: string)
    requires a + b <= s
    ensures a <= s && s[|a|..|a| + |b|] == b
  {
    assert (a + b)[..|a|] == a && (a + b)[|a|..] == b;
  }

  lemma {:induction false} ScanIs(s: string, i: nat, j: nat, n: nat, stop: set<char>)
    requires i <= j <= n <= |s| && (forall c | c in s[i..j] :: c !in stop) && (j < n ==> s[j] in stop)
    ensures Scan(s, i, n, stop) == j
  {
    hide Scan;
    assert forall k | i <= k < j :: s[k] == s[i..j][k - i];
  }

  lemma Apart(s: string, p: string, k: nat, at: nat)
    requires 0 < |p| && (forall x | 1 <= x < |p| :: p[x] != p[0])
    requires At(s, p, at) && k < at < k + |p|
    ensures !At(s, p, k)
  {
    hide At;
    CharAt(s, p, at, 0);
    if At(s, p, k) {
      CharAt(s, p, k, at - k);
    }
  }

  lemma CharAt(s: string, p: string, k: nat, x: nat)
    requires At(s, p, k) && x < |p|
    ensures k + x < |s| && s[k + x] == p[x]
  {
    assert s[k..k + |p|][x] == s[k + x];
  }

  /** A word whose first character is nowhere else in it, and which is not in the text before it. */
  lemma {:induction false} FindIs(s: string, p: string, i: nat, at: nat)
    requires 0 < |p| && (forall k | 1 <= k < |p| :: p[k] != p[0])
    requires i <= at && At(s, p, at)
    requires forall k: nat | i <= k && k + |p| <= at :: !At(s, p, k)
    ensures Find(s, p, i) == at
  {
    hide Find, At;
    var r := Find(s, p, i);
    if r != -1 && r < at && at < r + |p| {
      Apart(s, p, r, at);
    }
  }

  lemma AtWithin(s: string, a: nat, b: nat, p: string, k: nat)
    requires a <= k && k + |p| <= b <= |s|
    ensures At(s, p, k) == At(s[a..b], p, k - a)
  {
    var inner, outer := s[a..b][k - a..k - a + |p|], s[k..k + |p|];
    forall x | 0 <= x < |p| ensures inner[x] == outer[x] {
      assert s[a..b][k - a + x] == s[k + x];
    }
    assert inner == outer;
  }

  lemma AtBefore(s: string, n: nat, p: string, k: nat)
    requires n <= |s| && k + |p| <= n
    ensures At(s[..n], p, k) == At(s, p, k)
  {
    assert s[..n][k..k + |p|] == s[k..k + |p|];
  }

  // ---------- Where the parts are ----------

  /** The buffer holds the request up to the end of the sequence number, then anything. */
  predicate Holds(cur: string, size: nat, r: Request) {
    |Core(r)| <= size <= |cur| && Core(r) <= cur
  }

  /** A text followed by one character. */
  lemma Last(s: string, a: string, c: char)
    requires a + [c] <= s
    ensures a <= s && s[|a|] == c
  {
    assert s[|a|] == (a + [c])[|a|];
  }

  lemma Layout(cur: string, size: nat, r: Request)
    requires Holds(cur, size, r)
    ensures ToHost(r) <= cur && r.name <= cur && |ToPath(r)| <= |ToSpaces(r)| < |ToValue(r)| < size
    ensures cur[|r.name|..|ToHost(r)|] == Lead(r.target)
    ensures |ToSlash(r)| == |ToHost(r)| + 1 && cur[|ToHost(r)|] == Separator(r.target)
    ensures cur[|ToSlash(r)|..|ToPath(r)|] == Path(r) && cur[|ToPath(r)|..|ToSpaces(r)|] == r.spaces
    ensures cur[|ToSpaces(r)|..|ToLine(r)|] == "RTSP/" && cur[|ToLine(r)|..|ToHeaders(r)|] == r.headers
    ensures cur[|ToHeaders(r)|..|ToWord(r)|] == "CSeq:" && cur[|ToWord(r)|..|ToNumber(r)|] == r.blanks
    ensures cur[|ToNumber(r)|..|ToValue(r)|] == r.cseq && cur[|ToValue(r)|] == r.end
  {
    hide Path, Lead;
    Last(cur, ToValue(r), r.end);
    Piece(cur, ToNumber(r), r.cseq);
    Piece(cur, ToWord(r), r.blanks);
    Piece(cur, ToHeaders(r), "CSeq:");
    Piece(cur, ToLine(r), r.headers);
    Piece(cur, ToSpaces(r), "RTSP/");
    Piece(cur, ToPath(r), r.spaces);
    Piece(cur, ToSlash(r), Path(r));
    Last(cur, ToHost(r), Separator(r.target));
    Piece(cur, r.name, Lead(r.target));
  }

  // ---------- Each step of the parser ----------

  lemma BlankAfterName(cur: string, size: nat, r: Request)
    requires Shaped(r) && Holds(cur, size, r)
    ensures |r.name| < size && cur[|r.name|] in BLANK
  {
    hide Path, PathOk, NumberOk;
    Layout(cur, size, r);
    if !r.target.Plain? {
      assert cur[|r.name|] == cur[|r.name|..|ToHost(r)|][0] == r.target.gap[0];
    }
  }

  lemma {:induction false} ReadsName(cur: string, size: nat, r: Request)
    requires Shaped(r) && Holds(cur, size, r)
    ensures |r.name| < size && cur[..|r.name|] == r.name
    ensures Scan(cur, 0, NameLimit(size), BLANK) == if |r.name| < PARAM_MAX - 1 then |r.name| else PARAM_MAX - 1
    ensures |r.name| >= PARAM_MAX - 1 ==> NameLimit(size) == PARAM_MAX - 1
    ensures |r.name| < PARAM_MAX - 1 ==> |r.name| < NameLimit(size)
  {
    hide Path, Scan, TargetOk, PathOk, NumberOk;
    Layout(cur, size, r);
    BlankAfterName(cur, size, r);
    var n := if |r.name| < PARAM_MAX - 1 then |r.name| else PARAM_MAX - 1;
    assert cur[0..n] == r.name[..n];
    ScanIs(cur, 0, n, NameLimit(size), BLANK);
  }

  /** The scheme of a URL, in capitals or not. */
  lemma SchemeThere(cur: string, n: nat, scheme: string)
    requires IsScheme(scheme) && n + 6 <= |cur| && cur[n..n + 6] == scheme + ":/"
    ensures SchemeAt(cur, n) && cur[n] !in BLANK
  {
    assert forall k | 0 <= k < 6 :: cur[n + k] == (scheme + ":/")[k];
  }

  lemma {:induction false} SkipIs(s: string, i: nat, j: nat, n: nat, gap: string)
    requires i <= j <= n <= |s| && s[i..j] == gap && (forall k | 0 <= k < |gap| :: gap[k] in BLANK)
    requires j < n ==> s[j] !in BLANK
    ensures Skip(s, i, n, BLANK) == j
  {
    hide Skip;
    assert forall k | i <= k < j :: s[k] == gap[k - i];
  }

  /** A URL is found behind the blanks. */
  lemma {:induction false} FindsUrl(cur: string, size: nat, n: nat, gap: string, scheme: string)
    requires IsGap(gap) && IsScheme(scheme) && n + |gap| + 9 < size <= |cur|
    requires cur[n..n + |gap|] == gap && cur[n + |gap|..n + |gap| + 6] == scheme + ":/"
    ensures Skip(cur, n + 1, size, BLANK) == n + |gap|
    ensures FindScheme(cur, n + |gap|, size - 3) == n + |gap| < size - 3
  {
    hide SchemeAt, IsScheme, Skip;
    SchemeThere(cur, n + |gap|, scheme);
    assert cur[n + 1..n + |gap|] == gap[1..];
    SkipIs(cur, n + 1, n + |gap|, size, gap[1..]);
  }

  /** With "rtsp://" the text up to the next slash or space is the host part; with "rtsp:/" there is none. */
  lemma UrlTaken(s: Session, cur: string, size: nat, n: nat, gap: string, scheme: string, e: nat)
    requires IsGap(gap) && IsScheme(scheme) && n + |gap| + 9 < size <= |cur| && size <= |s.hostPort|
    requires cur[n..n + |gap|] == gap && cur[n + |gap|..n + |gap| + 6] == scheme + ":/"
    ensures cur[n + |gap| + 6] != '/' ==> WithHost(s, cur, size, n) == (s, n + |gap| + 5)
    ensures
      && cur[n + |gap| + 6] == '/' && n + |gap| + 7 <= e < size && cur[e] in {'/', ' '}
      && '/' !in cur[n + |gap| + 7..e] && ' ' !in cur[n + |gap| + 7..e]
      ==> WithHost(s, cur, size, n) == (s.(hostPort := Overwrite(s.hostPort, cur[n + |gap| + 7..e])), e)
  {
    hide Scan, Skip, FindScheme, IsScheme, IsGap, Overwrite;
    FindsUrl(cur, size, n, gap, scheme);
    if e < size && n + |gap| + 7 <= e && cur[e] in {'/', ' '} {
      if '/' !in cur[n + |gap| + 7..e] && ' ' !in cur[n + |gap| + 7..e] {
        ScanIs(cur, n + |gap| + 7, e, size, {'/', ' '});
      }
    }
  }

  lemma ReadsUrl(s: Session, cur: string, size: nat, r: Request)
    requires Shaped(r) && Holds(cur, size, r) && size <= |s.hostPort| && r.target.Url?
    ensures |r.target.host| <= |s.hostPort|
    ensures WithHost(s, cur, size, |r.name|) == (s.(hostPort := Overwrite(s.hostPort, r.target.host)), |ToHost(r)|)
  {
    hide Overwrite, IsScheme, PathOk, NumberOk, IsGap, ToHost, Holds, WithHost;
    TargetInside(cur, size, r);
    UrlParts(cur, r);
    UrlTaken(s, cur, size, |r.name|, r.target.gap, r.target.scheme, |ToHost(r)|);
  }

  lemma TargetInside(cur: string, size: nat, r: Request)
    requires Shaped(r) && Holds(cur, size, r)
    ensures ToHost(r) <= cur && |ToHost(r)| + 7 < size <= |cur| && cur[|ToHost(r)|] == Separator(r.target)
  {
    hide Path, Lead, TargetOk, Contains;
    Layout(cur, size, r);
  }

  /** The parts in front of the path of a URL. */
  lemma UrlParts(cur: string, r: Request)
    requires r.target.Url? && IsScheme(r.target.scheme) && ToHost(r) <= cur
    ensures
      var j := |r.name| + |r.target.gap|;
      && j + 7 + |r.target.host| == |ToHost(r)|
      && cur[|r.name|..j] == r.target.gap && cur[j..j + 6] == r.target.scheme + ":/"
      && cur[j + 6] == '/' && cur[j + 7..|ToHost(r)|] == r.target.host
  {
    var gap, scheme, host := r.target.gap, r.target.scheme, r.target.host;
    assert ToHost(r) == r.name + gap + (scheme + ":/") + ['/'] + host;
    Piece(cur, r.name + gap + (scheme + ":/") + ['/'], host);
    Last(cur, r.name + gap + (scheme + ":/"), '/');
    Piece(cur, r.name + gap, scheme + ":/");
    Piece(cur, r.name, gap);
  }

  lemma ReadsShort(s: Session, cur: string, size: nat, r: Request)
    requires Shaped(r) && Holds(cur, size, r) && size <= |s.hostPort| && r.target.Short?
    ensures WithHost(s, cur, size, |r.name|) == (s, |ToHost(r)|)
  {
    hide IsScheme, PathOk, NumberOk, IsGap, Holds, WithHost, ToHost, Path;
    TargetInside(cur, size, r);
    ShortParts(cur, r);
    NoSlashThere(cur, size, r);
    AfterHost(r);
    UrlTaken(s, cur, size, |r.name|, r.target.gap, r.target.scheme, 0);
  }

  /** The parts in front of the path of "rtsp:/". */
  lemma ShortParts(cur: string, r: Request)
    requires r.target.Short? && IsScheme(r.target.scheme)
    requires ToHost(r) <= cur && |ToHost(r)| < |cur| && cur[|ToHost(r)|] == '/'
    ensures
      var j := |r.name| + |r.target.gap|;
      j + 5 == |ToHost(r)| && cur[|r.name|..j] == r.target.gap && cur[j..j + 6] == r.target.scheme + ":/"
  {
    var gap, scheme := r.target.gap, r.target.scheme;
    var all := r.name + gap + (scheme + ":/");
    assert all == ToHost(r) + ['/'];
    assert cur[..|all|] == all;
    Piece(cur, r.name + gap, scheme + ":/");
    Piece(cur, r.name, gap);
  }

  lemma NoSlashThere(cur: string, size: nat, r: Request)
    requires Shaped(r) && Holds(cur, size, r) && r.target.Short?
    ensures |ToSlash(r)| < size && cur[|ToSlash(r)|] != '/'
  {
    hide Path, Contains, IsScheme, IsGap, NumberOk, Lead;
    Layout(cur, size, r);
    if Path(r) == "" {
      assert cur[|ToSlash(r)|] == cur[|ToPath(r)|..|ToSpaces(r)|][0] == r.spaces[0];
    } else {
      assert cur[|ToSlash(r)|] == cur[|ToSlash(r)|..|ToPath(r)|][0];
    }
  }

  lemma ReadsPlain(s: Session, cur: string, size: nat, r: Request)
    requires Shaped(r) && Holds(cur, size, r) && size <= |s.hostPort| && r.target.Plain? && NoScheme(cur, r, size)
    ensures WithHost(s, cur, size, |r.name|) == (s, |ToHost(r)|)
  {
    hide Path, Scan, Skip, SchemeAt, Overwrite, FindScheme, PathOk, NumberOk;
    Layout(cur, size, r);
    var from, limit := Skip(cur, |r.name| + 1, size, BLANK), if size < 3 then 0 else size - 3;
    var j := FindScheme(cur, from, limit);
    assert j == limit;
  }

  lemma ReadsHost(s: Session, cur: string, size: nat, r: Request)
    requires Shaped(r) && Holds(cur, size, r) && size <= |s.hostPort| && NoScheme(cur, r, size)
    ensures |HostOf(r.target)| <= |s.hostPort| && |r.name| <= size <= |cur|
    ensures
      WithHost(s, cur, size, |r.name|) == (s.(hostPort := Overwrite(s.hostPort, HostOf(r.target))), |ToHost(r)|)
  {
    hide Shaped, Holds, WithHost, NoScheme, ToHost, Overwrite;
    OverwriteNone(s.hostPort);
    TargetInside(cur, size, r);
    ReadsName(cur, size, r);
    match r.target
    case Url(_, _, _) => ReadsUrl(s, cur, size, r);
    case Short(_, _) => ReadsShort(s, cur, size, r);
    case Plain(_) => ReadsPlain(s, cur, size, r);
  }

  lemma NoProtocolInPath(cur: string, size: nat, r: Request, k: nat)
    requires Shaped(r) && Holds(cur, size, r) && |ToSlash(r)| <= k && k + 5 <= |ToSpaces(r)|
    ensures !At(cur, "RTSP/", k)
  {
    hide Path, Find, TargetOk, NumberOk;
    Layout(cur, size, r);
    if k + 5 <= |ToPath(r)| {
      AtWithin(cur, |ToSlash(r)|, |ToPath(r)|, "RTSP/", k);
    } else {
      assert cur[k + 4] == cur[|ToPath(r)|..|ToSpaces(r)|][k + 4 - |ToPath(r)|] == ' ';
      At5(cur, "RTSP/", k);
    }
  }

  lemma {:induction false} FindsProtocol(cur: string, size: nat, r: Request)
    requires Shaped(r) && Holds(cur, size, r)
    ensures Find(cur[..size - 1], "RTSP/", |ToSlash(r)|) == |ToSpaces(r)|
  {
    hide Path, Find, At, Shaped;
    Layout(cur, size, r);
    var h, line := |ToSpaces(r)|, cur[..size - 1];
    assert At(cur, "RTSP/", h) by {
      WordThere(cur, h, "RTSP/");
    }
    AtBefore(cur, size - 1, "RTSP/", h);
    forall k: nat | |ToSlash(r)| <= k && k + 5 <= h ensures !At(line, "RTSP/", k) {
      AtBefore(cur, size - 1, "RTSP/", k);
      NoProtocolInPath(cur, size, r, k);
    }
    FindIs(line, "RTSP/", |ToSlash(r)|, h);
  }

  lemma WordThere(cur: string, h: nat, p: string)
    requires h + |p| <= |cur| && cur[h..h + |p|] == p
    ensures At(cur, p, h)
  {
  }

  /** Where the two parts of the path are separated. */
  function SlashAt(r: Request): nat {
    if r.pre == "" then |ToHost(r)| else |ToSlash(r)| + |r.pre|
  }

  lemma {:induction false} PathEnds(cur: string, size: nat, r: Request)
    requires Shaped(r) && Holds(cur, size, r)
    ensures 0 < |ToHost(r)| <= SlashAt(r) < |ToPath(r)| < |ToSpaces(r)| < size <= |cur|
    ensures BackOverSpaces(cur, |ToHost(r)|, |ToSpaces(r)|) == |ToPath(r)| - 1
    ensures BackToSlash(cur, |ToHost(r)|, |ToPath(r)| - 1) == SlashAt(r)
    ensures cur[SlashAt(r) + 1..|ToPath(r)|] == r.suf
    ensures cur[|ToHost(r)| + 1..if SlashAt(r) == |ToHost(r)| then |ToHost(r)| + 1 else SlashAt(r)] == r.pre
  {
    hide Contains, BackToSlash, BackOverSpaces, Path, TargetOk, NumberOk;
    SuffixAfterSlash(cur, size, r);
    LastOfPath(cur, size, r);
    BackIs(cur, |ToHost(r)|, SlashAt(r), |ToPath(r)| - 1, |ToSpaces(r)|);
  }

  lemma {:induction false} BackIs(s: string, i: nat, slash: nat, k: nat, h: nat)
    requires i <= slash <= k < h <= |s| && s[k] != ' ' && forall x | k < x < h :: s[x] == ' '
    requires (slash == i || s[slash] == '/') && '/' !in s[slash + 1..k + 1]
    ensures BackOverSpaces(s, i, h) == k && BackToSlash(s, i, k) == slash
  {
    hide BackOverSpaces, BackToSlash;
    assert forall x | slash < x <= k :: s[x] == s[slash + 1..k + 1][x - slash - 1];
  }

  lemma LastOfPath(cur: string, size: nat, r: Request)
    requires Shaped(r) && Holds(cur, size, r)
    ensures 0 < |r.name| <= |ToHost(r)| < |ToPath(r)| < |ToSpaces(r)| < size <= |cur|
    ensures cur[|ToPath(r)| - 1] != ' ' && forall x | |ToPath(r)| <= x < |ToSpaces(r)| :: cur[x] == ' '
  {
    hide Contains, IsScheme, IsGap, NumberOk;
    Layout(cur, size, r);
    SuffixAfterSlash(cur, size, r);
    forall x | |ToPath(r)| <= x < |ToSpaces(r)| ensures cur[x] == ' ' {
      assert cur[x] == cur[|ToPath(r)|..|ToSpaces(r)|][x - |ToPath(r)|];
    }
    if r.suf != "" {
      assert cur[|ToPath(r)| - 1] == r.suf[|r.suf| - 1];
    }
  }

  lemma SuffixAfterSlash(cur: string, size: nat, r: Request)
    requires Holds(cur, size, r)
    ensures |ToHost(r)| <= SlashAt(r) < |ToPath(r)| <= |cur|
    ensures SlashAt(r) > |ToHost(r)| || !r.target.Plain? ==> cur[SlashAt(r)] == '/'
    ensures cur[SlashAt(r) + 1..|ToPath(r)|] == r.suf
    ensures cur[|ToHost(r)| + 1..if SlashAt(r) == |ToHost(r)| then |ToHost(r)| + 1 else SlashAt(r)] == r.pre
  {
    Layout(cur, size, r);
    if r.pre != "" {
      var path := cur[|ToSlash(r)|..|ToPath(r)|];
      Piece(path, r.pre + ['/'], r.suf);
      Last(path, r.pre, '/');
    }
  }

  lemma EndsAre(s: Session, cur: string, i: nat, k: nat, slash: nat, pre: string, suf: string)
    requires 0 < i <= slash <= k < |cur|
    requires cur[slash + 1..k + 1] == suf && cur[i + 1..if slash == i then i + 1 else slash] == pre
    ensures
      WithEnds(s, cur, i, k, slash)
      == if |suf| >= PARAM_MAX then (s, false)
         else if |pre| >= PARAM_MAX then (s.(suffix := CString(suf)), false)
         else (s.(suffix := CString(suf), preSuffix := CString(pre)), true)
  {
    hide CString;
  }

  lemma ReadsEnds(s: Session, cur: string, size: nat, r: Request)
    requires Shaped(r) && Holds(cur, size, r)
    ensures 0 < |ToHost(r)| <= SlashAt(r) < |ToPath(r)| < |cur|
    ensures
      WithEnds(s, cur, |ToHost(r)|, |ToPath(r)| - 1, SlashAt(r))
      == if |r.suf| >= PARAM_MAX then (s, false)
         else if |r.pre| >= PARAM_MAX then (s.(suffix := CString(r.suf)), false)
         else (s.(suffix := CString(r.suf), preSuffix := CString(r.pre)), true)
  {
    hide WithEnds, BackOverSpaces, BackToSlash, Shaped, Holds, ToHost, ToPath, ToSpaces, SlashAt, CString;
    PathEnds(cur, size, r);
    EndsAre(s, cur, |ToHost(r)|, |ToPath(r)| - 1, SlashAt(r), r.pre, r.suf);
  }

  lemma AfterHost(r: Request)
    ensures |ToSlash(r)| == |ToHost(r)| + 1
  {
  }

  lemma ReadsPath(s: Session, cur: string, size: nat, r: Request)
    requires Shaped(r) && Holds(cur, size, r)
    ensures 0 < |ToHost(r)| <= size
    ensures
      WithPath(s, cur, size, |ToHost(r)|)
      == if |r.suf| >= PARAM_MAX then (s, false, 0)
         else if |r.pre| >= PARAM_MAX then (s.(suffix := CString(r.suf)), false, 0)
         else (s.(suffix := CString(r.suf), preSuffix := CString(r.pre)), true, |ToPath(r)| + 6)
  {
    hide Find, BackOverSpaces, BackToSlash, WithEnds, Path, Shaped, Holds, SlashAt, ToHost, ToPath, ToSpaces, CString;
    AfterHost(r);
    FindsProtocol(cur, size, r);
    PathEnds(cur, size, r);
    ReadsEnds(s, cur, size, r);
  }

  lemma NoNumberInHeaders(cur: string, size: nat, r: Request, k: nat)
    requires Shaped(r) && Holds(cur, size, r) && |ToPath(r)| + 6 <= k && k + 5 <= |ToHeaders(r)|
    ensures !At(cur, "CSeq:", k)
  {
    hide Path, Find, TargetOk;
    Layout(cur, size, r);
    if |ToLine(r)| <= k {
      AtWithin(cur, |ToLine(r)|, |ToHeaders(r)|, "CSeq:", k);
    } else if |ToSpaces(r)| <= k {
      assert cur[k] == cur[|ToSpaces(r)|..|ToLine(r)|][k - |ToSpaces(r)|];
      At5(cur, "CSeq:", k);
    } else {
      assert cur[k] == cur[|ToPath(r)|..|ToSpaces(r)|][k - |ToPath(r)|] == ' ';
      At5(cur, "CSeq:", k);
    }
  }

  lemma {:induction false} FindsNumber(cur: string, size: nat, r: Request)
    requires Shaped(r) && Holds(cur, size, r)
    ensures Find(cur[..size - 1], "CSeq:", |ToPath(r)| + 6) == |ToHeaders(r)|
  {
    hide Path, Find, At, TargetOk, NumberOk;
    Layout(cur, size, r);
    var h, line := |ToHeaders(r)|, cur[..size - 1];
    assert At(cur, "CSeq:", h) by {
      WordThere(cur, h, "CSeq:");
    }
    AtBefore(cur, size - 1, "CSeq:", h);
    forall k: nat | |ToPath(r)| + 6 <= k && k + 5 <= h ensures !At(line, "CSeq:", k) {
      AtBefore(cur, size - 1, "CSeq:", k);
      NoNumberInHeaders(cur, size, r, k);
    }
    FindIs(line, "CSeq:", |ToPath(r)| + 6, h);
  }

  lemma {:induction false} NumberBounds(cur: string, size: nat, r: Request)
    requires Shaped(r) && Holds(cur, size, r)
    ensures |ToHeaders(r)| + 5 == |ToWord(r)| <= |ToNumber(r)| < size <= |cur|
    ensures
      var j := |ToNumber(r)|;
      var e := j + |Most(r.cseq, PARAM_MAX - 1)|;
      && Skip(cur, |ToWord(r)|, size, BLANK) == j
      && Scan(cur, j, ValueLimit(j, size), {'\r', '\n'}) == e
      && cur[j..e] == Most(r.cseq, PARAM_MAX - 1)
      && (e < ValueLimit(j, size) <==> |r.cseq| < PARAM_MAX - 1)
  {
    hide Path, Contains, Scan, Skip, TargetOk, PathOk;
    Layout(cur, size, r);
    var j, text := |ToNumber(r)|, Most(r.cseq, PARAM_MAX - 1);
    assert r.cseq != "" ==> cur[j] == cur[j..|ToValue(r)|][0];
    SkipIs(cur, |ToWord(r)|, j, size, r.blanks);
    var e := j + |text|;
    assert cur[j..e] == cur[j..|ToValue(r)|][..|text|] == text;
    ScanIs(cur, j, e, ValueLimit(j, size), {'\r', '\n'});
  }

  lemma ReadsNumber(s: Session, cur: string, size: nat, r: Request)
    requires Shaped(r) && Holds(cur, size, r)
    ensures 0 < size <= |cur|
    ensures
      WithCSeq(s, cur, size, |ToPath(r)| + 6)
      == Outcome(|r.cseq| < PARAM_MAX - 1, s.(cseq := CString(Most(r.cseq, PARAM_MAX - 1))))
  {
    hide Find, Scan, Skip, ToHeaders, ToNumber, ToValue, ToPath, ToWord, Shaped, Holds, Most, CString, ValueLimit;
    FindsNumber(cur, size, r);
    NumberBounds(cur, size, r);
  }

  /** The core of a request is read from any buffer that holds it as what it means. */
  lemma {:induction false} ReadsCore(s: Session, cur: string, size: nat, r: Request)
    requires Shaped(r) && Holds(cur, size, r) && size <= |s.hostPort| && NoScheme(cur, r, size)
    requires |r.name| < PARAM_MAX - 1
    ensures Scan(cur, 0, NameLimit(size), BLANK) == |r.name| && 0 < |r.name| < size
    ensures |HostOf(r.target)| <= |s.hostPort| == |WithCommand(s, cur, |r.name|).hostPort|
    ensures AfterName(s, cur, size, |r.name|) == Taken(WithCommand(s, cur, |r.name|), r)
  {
    hide Path, Scan, WithHost, WithPath, WithCSeq, WithCommand, Shaped, Overwrite, NoScheme, HostOf, ToHost, ToPath;
    hide Holds, Most, CString;
    ReadsName(cur, size, r);
    NameThere(r);
    TargetInside(cur, size, r);
    var t := WithCommand(s, cur, |r.name|);
    assert size <= |t.hostPort|;
    ReadsHost(t, cur, size, r);
    var u := t.(hostPort := Overwrite(t.hostPort, HostOf(r.target)));
    ReadsPath(u, cur, size, r);
    ReadsNumber(u.(suffix := CString(r.suf), preSuffix := CString(r.pre)), cur, size, r);
  }

  lemma NameThere(r: Request)
    requires Shaped(r)
    ensures r.name != ""
  {
  }

  // ---------- The ports ----------

  function Decimal(n: nat): (s: string)
    ensures s != "" && forall c | c in s :: c in DIGITS
    decreases n
  {
    var d := ['0', '1', '2', '3', '4', '5', '6', '7', '8', '9'][n % 10];
    if n < 10 then [d] else Decimal(n / 10) + [d]
  }

  lemma {:induction false} DigitsOfDecimal(n: nat)
    ensures Digits(Decimal(n)) == n
    decreases n
  {
    var s := Decimal(n);
    if n >= 10 {
      DigitsOfDecimal(n / 10);
      assert s[..|s| - 1] == Decimal(n / 10);
    } else {
      assert s[..|s| - 1] == [];
    }
  }

  lemma {:induction false} SkipsAll(s: string, over: set<char>)
    requires forall c | c in s :: c in over
    ensures Skip(s, 0, |s|, over) == |s|
  {
    hide Skip;
    var j := Skip(s, 0, |s|, over);
    if j < |s| {
      InSeq(s, j);
    }
  }

  lemma InSeq(s: string, j: nat)
    requires j < |s|
    ensures s[j] in s
  {
  }

  lemma {:induction false} AtoiInvertsDecimal(n: nat)
    ensures Atoi(Decimal(n)) == n
  {
    hide Digits;
    var s := Decimal(n);
    DigitsOfDecimal(n);
    assert s[0] in s;
    assert Skip(s, 0, |s|, WHITE) == 0;
    SkipsAll(s, DIGITS);
    assert s[0..|s|] == s;
  }

  /** The parameter that carries the client's ports, section 12.39 of RFC 2326. */
  function PortText(a: nat, more: string): string {
    "client_port=" + Decimal(a) + "-" + more
  }

  lemma {:induction false} FindChar(s: string, c: char, k: nat)
    requires k < |s| && s[k] == c && c !in s[..k]
    ensures Find(s, [c], 0) == k
  {
    hide Find;
    assert s[k..k + 1] == [c];
    forall j: nat | j + 1 <= k ensures !At(s, [c], j) {
      assert s[j] == s[..k][j] && s[..k][j] in s[..k];
      assert s[j..j + 1][0] == s[j];
    }
    FindIs(s, [c], 0, k);
  }

  lemma PortOfText(a: nat, more: string)
    ensures PortIn(PortText(a, more)) == a % 0x1_0000
  {
    hide Atoi, Decimal, Find;
    var line := PortText(a, more);
    var value := Decimal(a) + "-" + more;
    assert line == "client_port" + "=" + value;
    FindChar(line, '=', 11);
    assert Find(line, "=", 0) == 11;
    assert line[12..] == value;
    assert value[..|Decimal(a)|] == Decimal(a);
    FindChar(value, '-', |Decimal(a)|);
    assert Find(value, "-", 0) == |Decimal(a)|;
    AtoiInvertsDecimal(a);
    assert Atoi(value[..|Decimal(a)|]) == a;
    assert Find(line[12..], "-", 0) == |Decimal(a)|;
    assert PortIn(line) == Atoi(line[12..][..|Decimal(a)|]) % 0x1_0000;
  }

  /** A text that holds no `p` from i on before position n. */
  lemma NoneBefore(s: string, lead: string, p: string, k: nat)
    requires lead <= s && !Contains(lead, p) && k + |p| <= |lead|
    ensures !At(s, p, k)
  {
    hide Find;
    assert s[..|lead|] == lead;
    AtBefore(s, |lead|, p, k);
  }

  /** The client's first port is read back from the first `client_port` parameter, wherever it is; the
      second one is not read but taken to be the next. */
  lemma PortsReadBack(s: Session, lead: string, a: nat, more: string, after: string)
    requires NUL !in lead && NUL !in more && '\r' !in more && !Contains(lead, "client_port")
    ensures
      var buffer := lead + PortText(a, more) + "\r\n" + after;
      && WithPorts(s, buffer) == s.(rtpPort := a % 0x1_0000, rtcpPort := (a + 1) % 0x1_0000)
      && PortLine(buffer) == (|lead|, |lead| + |PortText(a, more)|)
  {
    hide PortIn, PortText, PortLine;
    var buffer := lead + PortText(a, more) + "\r\n" + after;
    PortOfText(a, more);
    LineOfPort(lead, a, more, after);
    assert buffer[|lead|..|lead| + |PortText(a, more)|] == PortText(a, more);
  }

  lemma NoNulInPort(a: nat, more: string)
    requires NUL !in more && '\r' !in more
    ensures NUL !in PortText(a, more) && '\r' !in PortText(a, more)
  {
  }

  lemma LineOfPort(lead: string, a: nat, more: string, after: string)
    requires NUL !in lead && NUL !in more && '\r' !in more && !Contains(lead, "client_port")
    ensures PortLine(lead + PortText(a, more) + "\r\n" + after) == (|lead|, |lead| + |PortText(a, more)|)
  {
    hide Find, CString, PortText;
    NoNulInPort(a, more);
    var line := PortText(a, more);
    var buffer := lead + line + "\r\n" + after;
    var text := CString(buffer);
    TextHolds(buffer, lead + line + "\r\n");
    assert lead <= lead + line + "\r\n" <= text by {
      Piece(lead + line + "\r\n", lead, line);
    }
    assert At(text, "client_port", |lead|) by {
      PortWordThere(lead, a, more);
      AtBefore(text, |lead + line + "\r\n"|, "client_port", |lead|);
    }
    forall k: nat | k + 11 <= |lead| ensures !At(text, "client_port", k) {
      NoneBefore(text, lead, "client_port", k);
    }
    FindIs(text, "client_port", 0, |lead|);
    EndOfLine(text, lead, line);
  }

  lemma PortWordThere(lead: string, a: nat, more: string)
    ensures At(lead + PortText(a, more) + "\r\n", "client_port", |lead|)
    ensures |PortText(a, more)| > 11
  {
    var t := lead + PortText(a, more) + "\r\n";
    assert PortText(a, more) == "client_port" + ("=" + Decimal(a) + "-" + more);
    assert t == lead + "client_port" + (("=" + Decimal(a) + "-" + more) + "\r\n");
  }

  /** A C string holds at least the part of its buffer before any NUL. */
  lemma TextHolds(buffer: string, part: string)
    requires part <= buffer && NUL !in part
    ensures part <= CString(buffer)
  {
    forall k | 0 <= k < |part| ensures buffer[k] != NUL {
      assert part[k] in part;
    }
  }

  lemma {:induction false} EndOfLine(text: string, lead: string, line: string)
    requires lead + line + "\r\n" <= text && '\r' !in line
    ensures Find(text, "\r\n", |lead|) == |lead| + |line|
  {
    hide Find;
    var e := |lead| + |line|;
    Piece(text, lead + line, "\r\n");
    Piece(text, lead, line);
    assert At(text, "\r\n", e);
    forall k: nat | |lead| <= k && k + 2 <= e ensures !At(text, "\r\n", k) {
      assert text[k] == text[|lead|..e][k - |lead|];
      assert text[k..k + 2][0] == text[k];
    }
    FindIs(text, "\r\n", |lead|, e);
  }

  /** In any line the port is the number behind the first '=' up to the next '-'; without one of the two
      nothing is read. */
  lemma PortInExactly(before: string, value: string, after: string)
    requires '=' !in before
    ensures PortIn(before) == -1
    ensures '-' !in value ==> PortIn(before + "=" + value) == -1
    ensures '-' !in value ==> PortIn(before + "=" + value + "-" + after) == Atoi(value) % 0x1_0000
  {
    hide Atoi, Find;
    CharAbsent(before, '=');
    if '-' !in value {
      var short, line := before + "=" + value, before + "=" + value + "-" + after;
      FindChar(short, '=', |before|);
      assert short[|before| + 1..] == value;
      CharAbsent(value, '-');
      FindChar(line, '=', |before|);
      var rest := value + "-" + after;
      assert line[|before| + 1..] == rest;
      FindChar(rest, '-', |value|);
      assert rest[..|value|] == value;
    }
  }

  lemma {:induction false} CharAbsent(s: string, c: char)
    requires c !in s
    ensures Find(s, [c], 0) == -1
  {
    hide Find;
    var r := Find(s, [c], 0);
    if r != -1 {
      CharAt(s, [c], r, 0);
    }
  }

  /** `atoi` skips white space, takes a sign, and stops at the first character that is no digit. */
  lemma {:induction false} AtoiReads(white: string, sign: string, n: nat, rest: string)
    requires (forall c | c in white :: c in WHITE) && sign in ["", "+", "-"]
    requires rest != "" ==> rest[0] !in DIGITS
    ensures var k: int := n; Atoi(white + sign + Decimal(n) + rest) == if sign == "-" then -k else k
  {
    hide Digits, Skip, Decimal;
    var s, from := white + sign + Decimal(n) + rest, |white| + |sign|;
    var digits := Decimal(n);
    FirstDigit(n);
    assert sign != "" ==> s[|white|] == sign[0];
    assert sign == "" ==> s[|white|] == digits[0];
    SkipsTo(s, 0, |white|, WHITE);
    assert s[from..from + |digits|] == digits;
    SkipsTo(s, from, from + |digits|, DIGITS);
    DigitsOfDecimal(n);
  }

  lemma {:induction false} FirstDigit(n: nat)
    ensures Decimal(n)[0] in DIGITS && Decimal(n)[0] !in WHITE && Decimal(n)[0] != '-' && Decimal(n)[0] != '+'
  {
    var d := Decimal(n);
    assert d[0] in d;
  }

  lemma {:induction false} SkipsTo(s: string, i: nat, j: nat, over: set<char>)
    requires i <= j <= |s| && (forall c | c in s[i..j] :: c in over) && (j < |s| ==> s[j] !in over)
    ensures Skip(s, i, |s|, over) == j
  {
    hide Skip;
    assert forall k | i <= k < j :: s[k] == s[i..j][k - i];
  }

  /** Without "client_port" in the text, or without a line end behind it, nothing is read or cut. */
  lemma NoPortLine(s: Session, buffer: string)
    requires
      var c := Find(CString(buffer), "client_port", 0);
      c == -1 || Find(CString(buffer), "\r\n", c) == -1
    ensures WithPorts(s, buffer) == s && CutLine(buffer) == buffer
  {
    hide CString, Find, PortIn;
  }

  // ---------- The whole request ----------

  /** Cutting the line of the ports leaves the core alone. */
  lemma CutSparesCore(r: Request, buffer: string)
    requires Shaped(r) && Core(r) <= buffer && !Contains(Core(r), "client_port")
    ensures Core(r) <= CutLine(buffer)
  {
    hide Find, CString, Core, At, Shaped;
    var (c, e) := PortLine(buffer);
    if e != -1 && c < |Core(r)| {
      CoreEndsLine(r);
      WordAfterLine(CString(buffer), buffer, Core(r), c);
    }
  }

  /** A word that the lines before do not hold starts after them. */
  lemma WordAfterLine(text: string, buffer: string, core: string, c: nat)
    requires text <= buffer && core <= buffer && c < |core|
    requires At(text, "client_port", c) && !Contains(core, "client_port")
    ensures core[|core| - 1] != '\n' && core[|core| - 1] != '\r'
  {
    hide Find;
    var last := |core| - 1;
    if c + 11 <= |core| {
      assert text[..|text|] == buffer[..|text|];
      AtBefore(buffer, |text|, "client_port", c);
      NoneBefore(buffer, core, "client_port", c);
    } else {
      CharAt(text, "client_port", c, last - c);
    }
  }

  lemma CoreEndsLine(r: Request)
    requires Shaped(r)
    ensures |Core(r)| > 0 && (Core(r)[|Core(r)| - 1] == '\n' || Core(r)[|Core(r)| - 1] == '\r')
  {
    hide ToValue;
  }

  lemma NoSchemeInCut(r: Request, buffer: string, size: nat)
    requires NoScheme(buffer, r, size)
    ensures NoScheme(CutLine(buffer), r, size)
  {
    hide PortLine;
    var cur := CutLine(buffer);
    if r.target.Plain? {
      forall k: nat | |r.name| < k && k + 9 <= size && size <= |cur| ensures !SchemeAt(cur, k) {
        assert !SchemeAt(buffer, k);
      }
    }
  }

  lemma HostInside(r: Request)
    ensures |HostOf(r.target)| <= |ToHost(r)| <= |Core(r)| <= |Print(r)|
  {
    hide Path;
  }

  lemma NameOf(cur: string, size: nat, r: Request)
    requires Holds(cur, size, r)
    ensures |r.name| <= |cur| && cur[..|r.name|] == r.name
  {
    Layout(cur, size, r);
  }

  /** The session with the command of that name, and with the transport a SETUP asks for in that text. */
  function Commanded(t: Session, name: string, text: string): (u: Session)
    ensures u.hostPort == t.hostPort
  {
    var cmd := TypeOf(CString(name), t.cmd);
    t.(cmd := cmd, tcp := if cmd == SETUP then Contains(text, "RTP/AVP/TCP") else t.tcp)
  }

  /** What is parsed is a request as printed, and the memory behind it, in which the request's core names no
      ports. */
  predicate Offered(r: Request, rest: string) {
    && Shaped(r) && !Contains(Core(r), "client_port")
    && Acceptable(Print(r) + rest, |Print(r)|) && NoScheme(Print(r) + rest, r, |Print(r)|)
  }

  /** The parser makes of a printed request what the request means, whatever follows it in memory: a name
      that does not fit ends it after the ports, and each other field is taken over until one does not fit. */
  lemma ParsedExactly(s: Session, r: Request, rest: string)
    requires Offered(r, rest) && |s.hostPort| == BUFFER_SIZE
    ensures |HostOf(r.target)| <= BUFFER_SIZE
    ensures
      var buffer := Print(r) + rest;
      var t := WithPorts(s, buffer);
      Parse(s, buffer, |Print(r)|)
      == if |r.name| >= PARAM_MAX - 1 then Outcome(false, t)
         else Taken(Commanded(t, r.name, CString(CutLine(buffer))), r)
  {
    hide Path, Scan, AfterName, Shaped, Core, CString, PortLine, PortIn, Contains, Taken, NoScheme, HostOf, LineFits;
    hide ToHost;
    var buffer, size := Print(r) + rest, |Print(r)|;
    HostInside(r);
    Piece(buffer, Core(r), r.tail);
    CutSparesCore(r, buffer);
    NoSchemeInCut(r, buffer, size);
    var cur := CutLine(buffer);
    NameOf(cur, size, r);
    ReadsName(cur, size, r);
    if |r.name| < PARAM_MAX - 1 {
      ReadsCore(WithPorts(s, buffer), cur, size, r);
    }
  }

  /** A printed request is accepted exactly if its fields fit their buffers. */
  lemma AcceptedExactly(s: Session, r: Request, rest: string)
    requires Offered(r, rest) && |s.hostPort| == BUFFER_SIZE
    ensures Parse(s, Print(r) + rest, |Print(r)|).ok <==> FieldsFit(r)
  {
    hide Offered, Parse, CString, Overwrite, CutLine, WithPorts, Acceptable, Print;
    assert Acceptable(Print(r) + rest, |Print(r)|) by {
      OfferedIsAcceptable(r, rest);
    }
    ParsedExactly(s, r, rest);
  }

  lemma OfferedIsAcceptable(r: Request, rest: string)
    requires Offered(r, rest)
    ensures Acceptable(Print(r) + rest, |Print(r)|)
  {
  }

  lemma CStringAll(t: string)
    requires NUL !in t
    ensures CString(t) == t
  {
  }

  /** Parsing inverts printing: the method's type, the host part (as far as the buffer shows it), both
      parts of the path and the sequence number come back, for every request whose fields hold no
      delimiter and fit their buffers. Without a host the buffer stays as it was. */
  lemma ParseInvertsPrint(s: Session, r: Request, rest: string)
    requires WellFormed(r) && Offered(r, rest) && |s.hostPort| == BUFFER_SIZE
    ensures |HostOf(r.target)| <= BUFFER_SIZE
    ensures
      var buffer := Print(r) + rest;
      var (t, cmd) := (WithPorts(s, buffer), TypeOf(r.name, s.cmd));
      Parse(s, buffer, |Print(r)|)
      == Outcome(true, Session(
           cmd, t.rtpPort, t.rtcpPort,
           if cmd == SETUP then Contains(CString(CutLine(buffer)), "RTP/AVP/TCP") else s.tcp,
           r.pre, r.suf, r.cseq, Overwrite(s.hostPort, HostOf(r.target))))
  {
    hide Parse, Shaped, CString, PortLine, PortIn, Contains, Overwrite, HostOf, TypeOf, CutLine, Print, Acceptable;
    hide Offered;
    OfferedIsAcceptable(r, rest);
    ParsedExactly(s, r, rest);
    CStringAll(r.name);
    CStringAll(r.pre);
    CStringAll(r.suf);
    CStringAll(r.cseq);
  }

  /** The same for a request with a Transport header: the client's first port comes back as well, and over
      which transport a SETUP asks for the media is read from the text before the end of that header. */
  lemma SetupReadBack(s: Session, r: Request, lead: string, a: nat, more: string, after: string, rest: string)
    requires WellFormed(r) && |s.hostPort| == BUFFER_SIZE
    requires r.tail == lead + PortText(a, more) + "\r\n" + after
    requires NUL !in Core(r) + lead && NUL !in more && '\r' !in more && !Contains(Core(r) + lead, "client_port")
    requires Acceptable(Print(r) + rest, |Print(r)|) && NoScheme(Print(r) + rest, r, |Print(r)|)
    ensures |HostOf(r.target)| <= BUFFER_SIZE
    ensures
      var cmd := TypeOf(r.name, s.cmd);
      Parse(s, Print(r) + rest, |Print(r)|)
      == Outcome(true, Session(
           cmd, a % 0x1_0000, (a + 1) % 0x1_0000,
           if cmd == SETUP then Contains(Core(r) + lead + PortText(a, more), "RTP/AVP/TCP") else s.tcp,
           r.pre, r.suf, r.cseq, Overwrite(s.hostPort, HostOf(r.target))))
  {
    hide Path, Shaped, Core, PortText, CString, PortLine, WithPorts, TypeOf, Parse, Overwrite, Contains;
    hide Acceptable, CutLine, NoScheme, HostOf;
    var line, buffer := PortText(a, more), Print(r) + rest;
    var all := Core(r) + lead;
    assert buffer == all + line + "\r\n" + (after + rest);
    ContainsLess(Core(r), lead, "client_port");
    ParseInvertsPrint(s, r, rest);
    PortsReadBack(s, all, a, more, after + rest);
    NoNulInPort(a, more);
    TextAfterCut(all, a, more, after + rest);
  }

  /** The same for a Transport header before the sequence number: the cut only takes the end of its line
      away, so that the number behind it is still found. */
  lemma TransportFirstReadBack(s: Session, r: Request, lead: string, a: nat, more: string, after: string, rest: string)
    requires WellFormed(r) && |s.hostPort| == BUFFER_SIZE
    requires r.headers == lead + PortText(a, more) + "\r\n" + after
    requires NUL !in ToLine(r) + lead && NUL !in more && '\r' !in more && !Contains(ToLine(r) + lead, "client_port")
    requires Acceptable(Print(r) + rest, |Print(r)|) && NoScheme(Print(r) + rest, r, |Print(r)|)
    ensures |HostOf(r.target)| <= BUFFER_SIZE
    ensures
      var cmd := TypeOf(r.name, s.cmd);
      Parse(s, Print(r) + rest, |Print(r)|)
      == Outcome(true, Session(
           cmd, a % 0x1_0000, (a + 1) % 0x1_0000,
           if cmd == SETUP then Contains(ToLine(r) + lead + PortText(a, more), "RTP/AVP/TCP") else s.tcp,
           r.pre, r.suf, r.cseq, Overwrite(s.hostPort, HostOf(r.target))))
  {
    hide Path, Scan, AfterName, Shaped, ToLine, PortText, CString, PortLine, WithPorts, PortIn, Contains, Overwrite;
    hide CutLine, Find, NoScheme, HostOf, TypeOf, Acceptable;
    var line, buffer, size := PortText(a, more), Print(r) + rest, |Print(r)|;
    var all := ToLine(r) + lead;
    var behind := after + "CSeq:" + r.blanks + r.cseq + [r.end] + r.tail + rest;
    SplitHeaders(r, lead, line, after, rest);
    PortsReadBack(s, all, a, more, behind);
    NoNulInPort(a, more);
    TextAfterCut(all, a, more, behind);
    var q := r.(headers := Cut(r.headers, |lead + line|));
    StillShaped(r, |lead + line|);
    CutInHeaders(r, lead, line, after, rest);
    NoSchemeInCut(r, buffer, size);
    var cur := CutLine(buffer);
    assert cur == Cut(buffer, |all + line|) by {
      CutsAt(buffer, |all|, |all + line|);
    }
    CutReadBack(s, r, q, buffer, size);
  }

  /** The request that is left when the port line has been cut is read back. */
  lemma CutReadBack(s: Session, r: Request, q: Request, buffer: string, size: nat)
    requires WellFormed(r) && Shaped(q) && q == r.(headers := q.headers)
    requires |s.hostPort| == BUFFER_SIZE && Acceptable(buffer, size) && Holds(CutLine(buffer), size, q)
    requires NoScheme(CutLine(buffer), r, size)
    ensures |HostOf(r.target)| <= BUFFER_SIZE
    ensures
      var (t, cmd) := (WithPorts(s, buffer), TypeOf(r.name, s.cmd));
      Parse(s, buffer, size)
      == Outcome(true, Session(
           cmd, t.rtpPort, t.rtcpPort,
           if cmd == SETUP then Contains(CString(CutLine(buffer)), "RTP/AVP/TCP") else s.tcp,
           r.pre, r.suf, r.cseq, Overwrite(s.hostPort, HostOf(r.target))))
  {
    hide Path, Scan, AfterName, Shaped, CString, PortLine, PortIn, Contains, Overwrite, CutLine, Find, TypeOf, Holds;
    hide HostOf;
    var cur := CutLine(buffer);
    assert NoScheme(cur, q, size);
    hide NoScheme;
    ReadsCore(WithPorts(s, buffer), cur, size, q);
    NameOf(cur, size, q);
    CStringAll(r.name);
    CStringAll(r.pre);
    CStringAll(r.suf);
    CStringAll(r.cseq);
  }

  /** The text with a NUL at the end of the line. */
  function Cut(text: string, e: nat): (cut: string)
    requires e < |text|
    ensures |cut| == |text|
  {
    text[e := NUL]
  }

  lemma CutsAt(buffer: string, c: nat, e: nat)
    requires PortLine(buffer) == (c, e) && e < |buffer|
    ensures CutLine(buffer) == Cut(buffer, e)
  {
    hide PortLine;
  }

  lemma SplitHeaders(r: Request, lead: string, line: string, after: string, rest: string)
    requires r.headers == lead + line + "\r\n" + after
    ensures
      Print(r) + rest
      == ToLine(r) + lead + line + "\r\n" + (after + "CSeq:" + r.blanks + r.cseq + [r.end] + r.tail + rest)
  {
    hide ToLine;
  }

  /** The cut text holds the request with the cut in its headers. */
  lemma CutInHeaders(r: Request, lead: string, line: string, after: string, rest: string)
    requires r.headers == lead + line + "\r\n" + after
    ensures |ToLine(r) + lead + line| < |Print(r)|
    ensures
      var q := r.(headers := Cut(r.headers, |lead + line|));
      Holds(Cut(Print(r) + rest, |ToLine(r) + lead + line|), |Print(r)|, q)
  {
    var q := r.(headers := Cut(r.headers, |lead + line|));
    assert ToLine(q) == ToLine(r);
    hide ToLine;
    var e, number := |ToLine(r) + lead + line|, "CSeq:" + r.blanks + r.cseq + [r.end];
    assert Core(r) == ToLine(r) + r.headers + number;
    assert Core(q) == ToLine(r) + q.headers + number;
    CutMiddle(ToLine(r), r.headers, number, |lead + line|);
    assert Cut(Print(r) + rest, e)[..|Core(r)|] == Cut(Core(r), e);
  }

  lemma CutMiddle(a: string, b: string, c: string, k: nat)
    requires k < |b|
    ensures a + Cut(b, k) + c == Cut(a + b + c, |a| + k)
  {
  }

  lemma StillShaped(r: Request, e: nat)
    requires Shaped(r) && e < |r.headers|
    ensures Shaped(r.(headers := Cut(r.headers, e)))
  {
    hide Find, TargetOk, PathOk;
    SamePath(r, Cut(r.headers, e));
    var h := Find(Cut(r.headers, e), "CSeq:", 0);
    if h != -1 {
      NoneInCut(r.headers, e, "CSeq:", h);
    }
  }

  lemma SamePath(r: Request, headers: string)
    ensures TargetOk(r.(headers := headers)) == TargetOk(r) && PathOk(r.(headers := headers)) == PathOk(r)
  {
    hide Contains, IsGap, IsScheme;
  }

  /** A word found in the cut text is in the text. */
  lemma NoneInCut(text: string, e: nat, p: string, h: nat)
    requires e < |text| && At(Cut(text, e), p, h) && NUL !in p
    ensures Contains(text, p)
  {
    hide Find;
    if h <= e < h + |p| {
      CharAt(Cut(text, e), p, h, e - h);
    }
    assert text[h..h + |p|] == Cut(text, e)[h..h + |p|];
    assert At(text, p, h);
  }

  lemma ContainsLess(a: string, b: string, p: string)
    requires !Contains(a + b, p)
    ensures !Contains(a, p)
  {
    hide Find;
    var r := Find(a, p, 0);
    if r != -1 {
      assert (a + b)[..|a|] == a;
      AtBefore(a + b, |a|, p, r);
    }
  }

  lemma TextAfterCut(lead: string, a: nat, more: string, after: string)
    requires NUL !in lead && NUL !in more && '\r' !in more && !Contains(lead, "client_port")
    ensures CString(CutLine(lead + PortText(a, more) + "\r\n" + after)) == lead + PortText(a, more)
  {
    hide PortLine, PortText, CString;
    var line := PortText(a, more);
    var buffer := lead + line + "\r\n" + after;
    LineOfPort(lead, a, more, after);
    NoNulInPort(a, more);
    var cut := CutLine(buffer);
    assert cut[..|lead + line|] == lead + line;
    CStringIs(cut, |lead + line|);
  }

  /** Each of the six methods is recognised by its name. */
  lemma NamesRead(c: Cmd, before: Cmd)
    requires !c.UNKNOWN?
    ensures TypeOf(Name(c), before) == TypeOf(CString(Name(c)), before) == c
  {
    NameIsText(c);
    hide TypeOf, CString;
    match c
    case OPTIONS => OptionsRead(before);
    case DESCRIBE => DescribeRead(before);
    case SETUP => SetupRead(before);
    case PLAY => PlayRead(before);
    case PAUSE => PauseRead(before);
    case TEARDOWN => TeardownRead(before);
  }

  /** The order in which the names are looked for. */
  const COMMANDS := [OPTIONS, DESCRIBE, SETUP, PLAY, PAUSE, TEARDOWN]

  /** The type is the first in that order whose name is anywhere in the text; if there is none, the type of
      the request before stays. */
  lemma TypeExactly(name: string, before: Cmd)
    ensures forall k | 0 <= k < 6 ::
      Contains(name, Name(COMMANDS[k])) && (forall j | 0 <= j < k :: !Contains(name, Name(COMMANDS[j])))
      ==> TypeOf(name, before) == COMMANDS[k]
    ensures (forall k | 0 <= k < 6 :: !Contains(name, Name(COMMANDS[k]))) ==> TypeOf(name, before) == before
  {
    hide Contains;
    assert Name(COMMANDS[0]) == "OPTIONS" && Name(COMMANDS[1]) == "DESCRIBE" && Name(COMMANDS[2]) == "SETUP";
    assert Name(COMMANDS[3]) == "PLAY" && Name(COMMANDS[4]) == "PAUSE" && Name(COMMANDS[5]) == "TEARDOWN";
  }

  lemma NameIsText(c: Cmd)
    requires !c.UNKNOWN?
    ensures CString(Name(c)) == Name(c)
  {
    hide CString;
    CStringAll(Name(c));
  }

  lemma OptionsRead(before: Cmd)
    ensures TypeOf("OPTIONS", before) == OPTIONS
  {
    hide Contains;
    ContainsItself("OPTIONS");
  }

  lemma DescribeRead(before: Cmd)
    ensures TypeOf("DESCRIBE", before) == DESCRIBE
  {
    hide Contains;
    ContainsItself("DESCRIBE");
    NotIn("DESCRIBE", "OPTIONS");
  }

  lemma SetupRead(before: Cmd)
    ensures TypeOf("SETUP", before) == SETUP
  {
    hide Contains;
    ContainsItself("SETUP");
    NotIn("SETUP", "OPTIONS");
    NotIn("SETUP", "DESCRIBE");
  }

  lemma PlayRead(before: Cmd)
    ensures TypeOf("PLAY", before) == PLAY
  {
    hide Contains;
    ContainsItself("PLAY");
    NotIn("PLAY", "OPTIONS");
    NotIn("PLAY", "DESCRIBE");
    NotIn("PLAY", "SETUP");
  }

  lemma PauseRead(before: Cmd)
    ensures TypeOf("PAUSE", before) == PAUSE
  {
    hide Contains;
    ContainsItself("PAUSE");
    NotIn("PAUSE", "OPTIONS");
    NotIn("PAUSE", "DESCRIBE");
    NotIn("PAUSE", "SETUP");
    NotIn("PAUSE", "PLAY");
  }

  lemma TeardownRead(before: Cmd)
    ensures TypeOf("TEARDOWN", before) == TEARDOWN
  {
    hide Contains;
    ContainsItself("TEARDOWN");
    NotIn("TEARDOWN", "OPTIONS");
    NotIn("TEARDOWN", "DESCRIBE");
    NotIn("TEARDOWN", "SETUP");
    NotIn("TEARDOWN", "PLAY");
    NotIn("TEARDOWN", "PAUSE");
  }

  lemma ContainsItself(s: string)
    ensures Contains(s, s)
  {
    assert At(s, s, 0);
  }

  /** A text without the first three characters of p in a row. */
  lemma NotIn(s: string, p: string)
    requires |p| >= 3
    ensures (forall k | 0 <= k < |s| - 2 :: !(s[k] == p[0] && s[k + 1] == p[1] && s[k + 2] == p[2])) ==> !Contains(s, p)
  {
    hide Find;
    var r := Find(s, p, 0);
    if r != -1 {
      CharAt(s, p, r, 0);
      CharAt(s, p, r, 1);
      CharAt(s, p, r, 2);
    }
  }

  // ---------- The host part ----------

  /** The host buffer after a run of requests with these host parts. */
  function AfterHosts(hosts: seq<string>): (b: string)
    requires forall h | h in hosts :: |h| < BUFFER_SIZE
    ensures |b| == BUFFER_SIZE
  {
    if hosts == [] then Cleared()
    else Overwrite(AfterHosts(hosts[..|hosts| - 1]), hosts[|hosts| - 1])
  }

  function Longest(hosts: seq<string>): (n: nat)
    ensures forall h | h in hosts :: |h| <= n
    ensures if hosts == [] then n == 0 else exists h | h in hosts :: |h| == n
  {
    if hosts == [] then 0
    else
      var n := Longest(hosts[..|hosts| - 1]);
      if |hosts[|hosts| - 1]| > n then |hosts[|hosts| - 1]| else n
  }

  lemma {:induction false} TextOfHosts(hosts: seq<string>)
    requires forall h | h in hosts :: |h| < BUFFER_SIZE && NUL !in h
    ensures |CString(AfterHosts(hosts))| == Longest(hosts) < BUFFER_SIZE
    ensures forall k | Longest(hosts) <= k < BUFFER_SIZE :: AfterHosts(hosts)[k] == NUL
    decreases |hosts|
  {
    hide CString, Overwrite;
    if hosts == [] {
      CStringIs(AfterHosts(hosts), 0);
    } else {
      var start, last := hosts[..|hosts| - 1], hosts[|hosts| - 1];
      TextOfHosts(start);
      assert last in hosts;
      TextOverwritten(AfterHosts(start), last);
    }
  }

  /** A text written over a shorter one covers it; over a longer one it leaves the rest. */
  lemma TextOverwritten(was: string, text: string)
    requires NUL !in text && |text| < |was| && |CString(was)| < |was|
    requires forall k | |CString(was)| <= k < |was| :: was[k] == NUL
    ensures
      var n := if |text| > |CString(was)| then |text| else |CString(was)|;
      |CString(Overwrite(was, text))| == n && forall k | n <= k < |was| :: Overwrite(was, text)[k] == NUL
  {
    hide CString;
    var m := |CString(was)|;
    var b, n := Overwrite(was, text), if |text| > m then |text| else m;
    forall k | 0 <= k < n ensures b[k] != NUL {
      if k < |text| {
        assert text[k] in text;
      } else {
        assert CString(was)[k] in CString(was);
      }
    }
    CStringIs(b, n);
  }

  /** The buffer reads as the last host part exactly if no earlier one was longer. */
  lemma {:induction false} HostsExactly(hosts: seq<string>)
    requires hosts != [] && forall h | h in hosts :: |h| < BUFFER_SIZE && NUL !in h
    ensures CString(AfterHosts(hosts)) == hosts[|hosts| - 1] <==> forall h | h in hosts :: |h| <= |hosts[|hosts| - 1]|
  {
    hide CString;
    TextOfHosts(hosts);
    var last := hosts[|hosts| - 1];
    assert last in hosts && AfterHosts(hosts)[..|last|] == last;
  }

  /** A request, and what the memory after it holds when it is parsed. */
  datatype Input = Input(request: Request, rest: string)

  predicate Parsable(i: Input) {
    && Offered(i.request, i.rest) && |i.request.name| < PARAM_MAX - 1
    && NUL !in HostOf(i.request.target) && |HostOf(i.request.target)| < BUFFER_SIZE
  }

  /** The session after one more request. */
  function AfterRequest(before: Session, i: Input): (s: Session)
    requires |before.hostPort| == BUFFER_SIZE && Parsable(i)
    ensures |s.hostPort| == BUFFER_SIZE
  {
    Parse(before, Print(i.request) + i.rest, |Print(i.request)|).session
  }

  /** The session after a run of requests on a new connection. */
  function AfterRequests(inputs: seq<Input>): (s: Session)
    requires forall i | i in inputs :: Parsable(i)
    ensures |s.hostPort| == BUFFER_SIZE
  {
    if inputs == [] then FreshConnection()
    else AfterRequest(AfterRequests(inputs[..|inputs| - 1]), inputs[|inputs| - 1])
  }

  function Hosts(inputs: seq<Input>): (h: seq<string>)
    ensures |h| == |inputs|
  {
    seq(|inputs|, k requires 0 <= k < |inputs| => HostOf(inputs[k].request.target))
  }

  lemma {:induction false} HostsOfRun(inputs: seq<Input>)
    requires forall i | i in inputs :: Parsable(i)
    ensures forall h | h in Hosts(inputs) :: |h| < BUFFER_SIZE && NUL !in h
    ensures AfterRequests(inputs).hostPort == AfterHosts(Hosts(inputs))
    decreases |inputs|
  {
    hide Parsable, Overwrite, AfterRequest, HostOf;
    HostsFit(inputs);
    if inputs != [] {
      var start, last := inputs[..|inputs| - 1], inputs[|inputs| - 1];
      HostsOfRun(start);
      LastHost(AfterRequests(start), last);
      assert Hosts(inputs)[..|inputs| - 1] == Hosts(start);
    }
  }

  lemma HostsFit(inputs: seq<Input>)
    requires forall i | i in inputs :: Parsable(i)
    ensures forall h | h in Hosts(inputs) :: |h| < BUFFER_SIZE && NUL !in h
  {
    hide Offered, HostOf;
    forall k | 0 <= k < |inputs| ensures |Hosts(inputs)[k]| < BUFFER_SIZE && NUL !in Hosts(inputs)[k] {
      assert Parsable(inputs[k]);
    }
  }

  lemma LastHost(s: Session, i: Input)
    requires Parsable(i) && |s.hostPort| == BUFFER_SIZE
    ensures |HostOf(i.request.target)| <= BUFFER_SIZE
    ensures AfterRequest(s, i).hostPort == Overwrite(s.hostPort, HostOf(i.request.target))
  {
    hide Parse, Overwrite, CString, HostOf, CutLine, Offered, Acceptable, Print, TypeOf, Contains;
    OfferedIsAcceptable(i.request, i.rest);
    ParsedExactly(s, i.request, i.rest);
  }

  /** No terminator is written after the host part. After a whole run of requests on a connection, accepted
      or not, the member reads as the host part of the last one exactly if no earlier one was longer. */
  lemma HostReadBackExactly(inputs: seq<Input>)
    requires inputs != [] && forall i | i in inputs :: Parsable(i)
    ensures
      var last := HostOf(inputs[|inputs| - 1].request.target);
      CString(AfterRequests(inputs).hostPort) == last
      <==> forall k | 0 <= k < |inputs| :: |HostOf(inputs[k].request.target)| <= |last|
  {
    hide Parsable, CString, AfterRequests, AfterHosts, HostOf;
    HostsOfRun(inputs);
    HostsExactly(Hosts(inputs));
    NoneLonger(inputs, |HostOf(inputs[|inputs| - 1].request.target)|);
  }

  lemma NoneLonger(inputs: seq<Input>, n: nat)
    ensures (forall h | h in Hosts(inputs) :: |h| <= n)
      <==> forall k | 0 <= k < |inputs| :: |HostOf(inputs[k].request.target)| <= n
  {
    hide HostOf;
    var hosts := Hosts(inputs);
    if forall h | h in hosts :: |h| <= n {
      forall k | 0 <= k < |inputs| ensures |HostOf(inputs[k].request.target)| <= n {
        assert hosts[k] in hosts;
      }
    }
  }

  // ---------- Refused requests ----------

  /** A text up to a position that is not at the end of a line survives the cutting of the port line. */
  lemma CutKeepsText(buffer: string, text: string)
    requires text <= buffer && '\r' !in text
    ensures text <= CutLine(buffer)
  {
    hide Find, CString, At;
    var (c, e) := PortLine(buffer);
    if e != -1 {
      LineEndsLater(CString(buffer), buffer, text, e);
    }
  }

  lemma LineEndsLater(t: string, buffer: string, text: string, e: nat)
    requires t <= buffer && text <= buffer && '\r' !in text && At(t, "\r\n", e)
    ensures |text| <= e
  {
    CharAt(t, "\r\n", e, 0);
    if e < |text| {
      InSeq(text, e);
    }
  }

  /** A request whose URL ends with the host part, or that has nothing at all in front of the protocol, is
      refused, after its command has been taken over. */
  lemma NoPathIsRefused(s: Session, buffer: string, size: nat, name: string, target: Target)
    requires Acceptable(buffer, size) && |s.hostPort| == BUFFER_SIZE
    requires 0 < |name| < PARAM_MAX - 1 && (forall c | c in name :: c !in BLANK) && '\r' !in name
    requires LeadOk(target) && '\r' !in Lead(target)
    requires name + Lead(target) + " RTSP/" <= buffer && |name + Lead(target)| + 6 < size
    requires target.Plain? ==> forall k: nat | |name| < k && k + 9 <= size :: !SchemeAt(buffer, k)
    ensures !Parse(s, buffer, size).ok
    ensures Parse(s, buffer, size).session.cmd == TypeOf(CString(name), s.cmd)
  {
    hide AfterName, TypeOf, CString, PortLine, PortIn, LineFits, Find, Scan, LeadOk, Lead, SchemeAt;
    var cur := CutLine(buffer);
    CutKeepsText(buffer, name + Lead(target) + " RTSP/");
    if target.Plain? {
      forall k: nat | |name| < k && k + 9 <= size ensures !SchemeAt(cur, k) {
        CutAddsNoScheme(buffer, k);
      }
    }
    StartOfLine(cur, name, target);
    assert cur[0..|name|] == name;
    ScanIs(cur, 0, |name|, NameLimit(size), BLANK);
    NoPathAfterName(WithPorts(s, buffer), cur, size, name, target);
  }

  predicate LeadOk(t: Target) {
    match t
    case Url(gap, scheme, host) => IsGap(gap) && IsScheme(scheme) && '/' !in host && ' ' !in host
    case Short(_, _) => false
    case Plain(_) => true
  }

  lemma CutAddsNoScheme(buffer: string, k: nat)
    requires !SchemeAt(buffer, k)
    ensures !SchemeAt(CutLine(buffer), k)
  {
    hide PortLine;
  }

  lemma StartOfLine(cur: string, name: string, target: Target)
    requires name + Lead(target) + " RTSP/" <= cur && LeadOk(target)
    ensures name <= cur && name + Lead(target) <= cur && |name| < |cur| && cur[|name|] in BLANK
    ensures cur[|name + Lead(target)|..|name + Lead(target)| + 6] == " RTSP/"
  {
    var lead := Lead(target);
    Piece(cur, name + lead, " RTSP/");
    Piece(cur, name, lead);
    if lead == "" {
      assert cur[|name|] == cur[|name|..|name| + 6][0];
    } else {
      assert cur[|name|] == cur[|name|..|name| + |lead|][0] == target.gap[0];
    }
  }

  lemma NoPathAfterName(s: Session, cur: string, size: nat, name: string, target: Target)
    requires name != "" && size <= |cur| && size <= |s.hostPort| && LeadOk(target)
    requires name + Lead(target) + " RTSP/" <= cur && |name + Lead(target)| + 6 < size
    requires target.Plain? ==> forall k: nat | |name| < k && k + 9 <= size :: !SchemeAt(cur, k)
    ensures !AfterName(s, cur, size, |name|).ok
    ensures AfterName(s, cur, size, |name|).session.cmd == TypeOf(CString(name), s.cmd)
  {
    hide Scan, Skip, Find, FindScheme, CString, Overwrite, WithCSeq, WithCommand, WithHost, Lead, LeadOk, TypeOf;
    hide SchemeAt, BackOverSpaces, BackToSlash;
    var v := |name + Lead(target)|;
    assert |WithCommand(s, cur, |name|).hostPort| == |s.hostPort| by {
      CommandKeepsHost(s, cur, |name|);
    }
    StartOfLine(cur, name, target);
    EndsAtHost(WithCommand(s, cur, |name|), cur, size, name, target);
    ProtocolAfterHost(cur, size, v);
    BackFromHost(cur, v);
    assert cur[..|name|] == name;
    HostKeepsCommand(WithCommand(s, cur, |name|), cur, size, |name|);
    TypeTaken(s, cur, |name|);
  }

  lemma HostKeepsCommand(s: Session, cur: string, size: nat, i: nat)
    requires i <= size <= |cur| && size <= |s.hostPort|
    ensures WithHost(s, cur, size, i).0.cmd == s.cmd
  {
  }

  lemma TypeTaken(s: Session, cur: string, i: nat)
    requires i <= |cur|
    ensures WithCommand(s, cur, i).cmd == TypeOf(CString(cur[..i]), s.cmd)
  {
  }

  lemma CommandKeepsHost(s: Session, cur: string, i: nat)
    requires i <= |cur|
    ensures WithCommand(s, cur, i).hostPort == s.hostPort
  {
  }

  lemma EndsAtHost(s: Session, cur: string, size: nat, name: string, target: Target)
    requires size <= |cur| && size <= |s.hostPort| && LeadOk(target)
    requires name + Lead(target) + " RTSP/" <= cur && |name + Lead(target)| + 6 < size
    requires target.Plain? ==> forall k: nat | |name| < k && k + 9 <= size :: !SchemeAt(cur, k)
    ensures WithHost(s, cur, size, |name|).1 == |name + Lead(target)|
  {
    hide SchemeAt, Overwrite, IsScheme, IsGap, FindScheme, Skip, Scan;
    var v := |name + Lead(target)|;
    StartOfLine(cur, name, target);
    match target
    case Url(gap, scheme, _) =>
      assert cur[v] == cur[v..v + 6][0];
      UrlParts(cur, Request(name, target, "", "", "", "", "", "", ' ', ""));
      UrlTaken(s, cur, size, |name|, gap, scheme, v);
    case Plain(_) =>
      var j := FindScheme(cur, Skip(cur, |name| + 1, size, BLANK), size - 3);
      assert j == size - 3;
  }

  lemma {:induction false} ProtocolAfterHost(cur: string, size: nat, v: nat)
    requires v + 6 < size <= |cur| && cur[v..v + 6] == " RTSP/"
    ensures Find(cur[..size - 1], "RTSP/", v + 1) == v + 1 && cur[v] == ' '
  {
    hide Find, At;
    ProtocolAfterSpace(cur, v);
    AtBefore(cur, size - 1, "RTSP/", v + 1);
    FindHere(cur[..size - 1], "RTSP/", v + 1);
  }

  lemma {:induction false} FindHere(s: string, p: string, i: nat)
    requires At(s, p, i)
    ensures Find(s, p, i) == i
  {
  }

  lemma ProtocolAfterSpace(cur: string, v: nat)
    requires v + 6 <= |cur| && cur[v..v + 6] == " RTSP/"
    ensures At(cur, "RTSP/", v + 1) && cur[v] == ' '
  {
    assert cur[v] == cur[v..v + 6][0];
    assert cur[v..v + 6][1..6] == cur[v + 1..v + 6];
  }

  lemma {:induction false} BackFromHost(cur: string, v: nat)
    requires 0 < v < |cur| && cur[v] == ' '
    ensures BackOverSpaces(cur, v, v + 1) == v - 1 && BackToSlash(cur, v, v - 1) == v - 1
  {
  }

  lemma AfterNameNeeds(s: Session, cur: string, size: nat, i: nat) returns (p: nat, h: nat, e: nat)
    requires 0 < i < size <= |cur| && size <= |s.hostPort| && AfterName(s, cur, size, i).ok
    ensures Find(cur[..size - 1], "RTSP/", p) != -1 && Find(cur[..size - 1], "CSeq:", h) != -1
    ensures e < size && (cur[e] == '\r' || cur[e] == '\n')
  {
    hide WithHost, WithCommand, Find, CString, BackOverSpaces, BackToSlash, WithEnds, Skip, Scan, WithCSeq, Overwrite;
    var (t, start) := WithHost(WithCommand(s, cur, i), cur, size, i);
    var (u, found, headers) := WithPath(t, cur, size, start);
    p, h := start + 1, headers;
    e := NumberNeeds(u, cur, size, h);
  }

  lemma NumberNeeds(s: Session, cur: string, size: nat, h: nat) returns (e: nat)
    requires 0 < size <= |cur| && WithCSeq(s, cur, size, h).ok
    ensures Find(cur[..size - 1], "CSeq:", h) != -1 && e < size && (cur[e] == '\r' || cur[e] == '\n')
  {
    hide Find, Scan, Skip, CString;
    var j := Skip(cur, Find(cur[..size - 1], "CSeq:", h) + 5, size, BLANK);
    e := Scan(cur, j, ValueLimit(j, size), {'\r', '\n'});
  }

  /** Whatever the buffer holds: without a blank that ends a name of at most 198 characters, without "RTSP/",
      without "CSeq:" or without a line end nothing is accepted. */
  lemma NothingIsOptional(s: Session, buffer: string, size: nat)
    requires Acceptable(buffer, size) && |s.hostPort| == BUFFER_SIZE && Parse(s, buffer, size).ok
    ensures exists i: nat :: i < size && i < PARAM_MAX - 1 && buffer[i] in BLANK
    ensures Contains(buffer[..size - 1], "RTSP/") && Contains(buffer[..size - 1], "CSeq:")
    ensures exists k: nat :: k < size && (buffer[k] == '\r' || buffer[k] == '\n')
  {
    hide AfterName, WithPorts, LineFits, PortLine, Find, Scan, Contains;
    var cur := CutLine(buffer);
    var i := Scan(cur, 0, NameLimit(size), BLANK);
    assert buffer[i] in BLANK;
    var p, h, e := AfterNameNeeds(WithPorts(s, buffer), cur, size, i);
    WordInBuffer(buffer, size, "RTSP/", p);
    WordInBuffer(buffer, size, "CSeq:", h);
    assert buffer[e] == cur[e];
  }

  lemma WordInBuffer(buffer: string, size: nat, p: string, i: nat)
    requires 0 < size <= |buffer| && NUL !in p && Find(CutLine(buffer)[..size - 1], p, i) != -1
    ensures Contains(buffer[..size - 1], p)
  {
    hide PortLine, Find;
    var (c, e) := PortLine(buffer);
    var h := Find(CutLine(buffer)[..size - 1], p, i);
    if e != -1 && e < size - 1 {
      assert CutLine(buffer)[..size - 1] == Cut(buffer[..size - 1], e);
      NoneInCut(buffer[..size - 1], e, p, h);
    } else {
      assert CutLine(buffer)[..size - 1] == buffer[..size - 1];
      assert At(buffer[..size - 1], p, h);
    }
  }

  // ---------- Examples ----------

  lemma WordAbsent(s: string, p: string)
    requires p != "" && p[0] !in s
    ensures !Contains(s, p)
  {
    hide Find;
    var r := Find(s, p, 0);
    if r != -1 {
      CharAt(s, p, r, 0);
    }
  }

  const PLAY_URL := Request("PLAY", Url(" ", "rtsp", "h"), "ej", "1", " ", "1.0\r\n", " ", "2", '\r', "\n\r\n")
  const OPTIONS_ALL := Request("OPTIONS", Plain(' '), "", "*", " ", "1.0\r\n", " ", "1", '\r', "\n\r\n")

  const PLAY_TEXT := "PLAY rtsp://h/ej/1 RTSP/1.0\r\nCSeq: 2\r\n\r\n"
  const OPTIONS_TEXT := "OPTIONS * RTSP/1.0\r\nCSeq: 1\r\n\r\n"

  /** A request without the letter 'c', alone in a cleared buffer, is read back. */
  lemma ReadWhenAlone(s: Session, r: Request)
    requires WellFormed(r) && |s.hostPort| == BUFFER_SIZE && |Print(r)| < BUFFER_SIZE && 'c' !in Print(r)
    requires r.target.Plain? ==> forall k | 0 <= k < |Print(r)| - 1 && Print(r)[k] == ':' :: Print(r)[k + 1] == ' '
    ensures |HostOf(r.target)| <= BUFFER_SIZE
    ensures
      var rest := Cleared()[|Print(r)|..];
      && Offered(r, rest)
      && var o := Parse(s, Print(r) + rest, |Print(r)|);
         && o.ok && o.session.cmd == TypeOf(r.name, s.cmd) && o.session.preSuffix == r.pre
         && o.session.suffix == r.suf && o.session.cseq == r.cseq
         && o.session.hostPort == Overwrite(s.hostPort, HostOf(r.target))
  {
    hide Contains, Parse, Overwrite, CString, CutLine, TypeOf, Print, Offered, HostOf;
    InClearedBuffer(r);
    hide WellFormed;
    var rest := Cleared()[|Print(r)|..];
    OfferedIsAcceptable(r, rest);
    ParseInvertsPrint(s, r, rest);
  }

  /** A request with all parts, in a cleared buffer, meets what the parser and the lemmas ask for. */
  lemma PlayIsRead(s: Session)
    requires |s.hostPort| == BUFFER_SIZE
    ensures Print(PLAY_URL) == PLAY_TEXT && |PLAY_TEXT| < BUFFER_SIZE
    ensures
      var rest := Cleared()[|Print(PLAY_URL)|..];
      && WellFormed(PLAY_URL) && Offered(PLAY_URL, rest)
      && var o := Parse(s, Print(PLAY_URL) + rest, |Print(PLAY_URL)|);
         && o.ok && o.session.cmd == PLAY && o.session.preSuffix == "ej" && o.session.suffix == "1"
         && o.session.cseq == "2"
  {
    hide Parse, Overwrite, CString, TypeOf, Print, WellFormed, Offered, HostOf, Cleared;
    PlayText();
    PlayShaped();
    ExampleTexts();
    ReadWhenAlone(s, PLAY_URL);
    NamesRead(PLAY, s.cmd);
  }

  /** A request for the server as a whole, which is no URL, is read as well; the host stays as it was. */
  lemma OptionsIsRead(s: Session)
    requires |s.hostPort| == BUFFER_SIZE
    ensures Print(OPTIONS_ALL) == OPTIONS_TEXT && |OPTIONS_TEXT| < BUFFER_SIZE
    ensures
      var rest := Cleared()[|Print(OPTIONS_ALL)|..];
      && WellFormed(OPTIONS_ALL) && Offered(OPTIONS_ALL, rest)
      && var o := Parse(s, Print(OPTIONS_ALL) + rest, |Print(OPTIONS_ALL)|);
         && o.ok && o.session.cmd == OPTIONS && o.session.preSuffix == "" && o.session.suffix == "*"
         && o.session.cseq == "1" && o.session.hostPort == s.hostPort
  {
    hide Parse, Overwrite, CString, TypeOf, Print, WellFormed, Offered, Cleared;
    OptionsText();
    OptionsShaped();
    ExampleTexts();
    ReadWhenAlone(s, OPTIONS_ALL);
    OverwriteNone(s.hostPort);
    NamesRead(OPTIONS, s.cmd);
  }

  lemma PrintIs(r: Request, start: string, middle: string, end: string)
    requires start == r.name + Lead(r.target) + [Separator(r.target)] && middle == Path(r) + r.spaces + "RTSP/"
    requires end == r.headers + "CSeq:" + r.blanks + r.cseq + [r.end] + r.tail
    ensures Print(r) == start + middle + end
  {
    hide Path, Lead;
  }

  lemma PlayStart()
    ensures PLAY_URL.name + Lead(PLAY_URL.target) + [Separator(PLAY_URL.target)] == "PLAY rtsp://h/"
    ensures Path(PLAY_URL) + PLAY_URL.spaces + "RTSP/" == "ej/1 RTSP/"
  {
    assert Path(PLAY_URL) == "ej/1";
  }

  lemma OptionsStart()
    ensures OPTIONS_ALL.name + Lead(OPTIONS_ALL.target) + [Separator(OPTIONS_ALL.target)] == "OPTIONS "
    ensures Path(OPTIONS_ALL) + OPTIONS_ALL.spaces + "RTSP/" == "* RTSP/"
  {
  }

  lemma PlayLines()
    ensures "1.0\r\n" + "CSeq:" + " " + "2" + ['\r'] + "\n\r\n" == "1.0\r\nCSeq: 2\r\n\r\n"
    ensures "PLAY rtsp://h/" + "ej/1 RTSP/" + "1.0\r\nCSeq: 2\r\n\r\n" == PLAY_TEXT
  {
  }

  lemma OptionsLines()
    ensures "1.0\r\n" + "CSeq:" + " " + "1" + ['\r'] + "\n\r\n" == "1.0\r\nCSeq: 1\r\n\r\n"
    ensures "OPTIONS " + "* RTSP/" + "1.0\r\nCSeq: 1\r\n\r\n" == OPTIONS_TEXT
  {
  }

  lemma PlayText()
    ensures Print(PLAY_URL) == PLAY_TEXT
  {
    hide Print, Path, Lead, Separator;
    PlayStart();
    PlayLines();
    PrintIs(PLAY_URL, "PLAY rtsp://h/", "ej/1 RTSP/", "1.0\r\nCSeq: 2\r\n\r\n");
  }

  lemma OptionsText()
    ensures Print(OPTIONS_ALL) == OPTIONS_TEXT
  {
    hide Print, Path, Lead, Separator;
    OptionsStart();
    OptionsLines();
    PrintIs(OPTIONS_ALL, "OPTIONS ", "* RTSP/", "1.0\r\nCSeq: 1\r\n\r\n");
  }

  lemma PlayShaped()
    ensures WellFormed(PLAY_URL)
  {
    hide Contains, Lead;
    assert Path(PLAY_URL) == "ej/1";
    WordAbsent("ej/1", "RTSP/");
    WordAbsent("1.0\r\n", "CSeq:");
  }

  lemma OptionsShaped()
    ensures WellFormed(OPTIONS_ALL)
  {
    hide Contains, Lead;
    WordAbsent("*", "RTSP/");
    WordAbsent("1.0\r\n", "CSeq:");
  }

  lemma ExampleTexts()
    ensures |PLAY_TEXT| < BUFFER_SIZE && 'c' !in PLAY_TEXT
    ensures |OPTIONS_TEXT| < BUFFER_SIZE && 'c' !in OPTIONS_TEXT
    ensures forall k | 0 <= k < |OPTIONS_TEXT| - 1 && OPTIONS_TEXT[k] == ':' :: OPTIONS_TEXT[k + 1] == ' '
  {
  }

  /** A request without the letter 'c', alone in the buffer. */
  lemma InClearedBuffer(r: Request)
    requires Shaped(r) && |Print(r)| < BUFFER_SIZE && 'c' !in Print(r)
    requires r.target.Plain? ==> forall k | 0 <= k < |Print(r)| - 1 && Print(r)[k] == ':' :: Print(r)[k + 1] == ' '
    ensures Offered(r, Cleared()[|Print(r)|..])
  {
    hide Contains, CString, PortLine, Print, Core, Shaped, SchemeAt;
    var buffer := Print(r) + Cleared()[|Print(r)|..];
    assert buffer[|buffer| - 1] == NUL;
    TextWithoutWord(CString(buffer), buffer);
    StartsWithName(r);
    if r.target.Plain? {
      forall k: nat | |r.name| < k && k + 9 <= |Print(r)| ensures !SchemeAt(buffer, k) {
        SchemeChars(buffer, k);
        assert buffer[k + 4] == Print(r)[k + 4] && buffer[k + 5] == Print(r)[k + 5];
      }
    }
  }

  lemma StartsWithName(r: Request)
    requires Shaped(r)
    ensures Print(r) != "" && Print(r)[0] == r.name[0] && r.name[0] !in BLANK
    ensures 'c' !in Print(r) ==> !Contains(Core(r), "client_port")
  {
    hide Contains;
    if 'c' !in Print(r) {
      hide Path;
      assert 'c' !in Core(r);
      WordAbsent(Core(r), "client_port");
    }
  }

  lemma TextWithoutWord(text: string, buffer: string)
    requires text == CString(buffer) && 'c' !in buffer
    ensures PortLine(buffer).1 == -1
  {
    WordAbsent(text, "client_port");
  }
}
