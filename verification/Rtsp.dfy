/** src/libs/TcpConnection.cpp, lines 322-498: the RTSP request parser, step by step as functions of the
    request buffer, and the requests it reads back exactly. */
module Rtsp {
  const PARAM_MAX := 200                // RTSP_PARAM_STRING_MAX
  const BUFFER_SIZE := 10000            // RTSP_BUFFER_SIZE
  const NUL: char := '\0'

  datatype Cmd = OPTIONS | DESCRIBE | SETUP | PLAY | TEARDOWN | PAUSE | UNKNOWN

  // ---------- Strings ----------

  /** The first position from i on, before n, that holds one of `stop`; else n. */
  function Scan(s: string, i: nat, n: nat, stop: set<char>): (j: nat)
    requires i <= n <= |s|
    ensures i <= j <= n && (forall k | i <= k < j :: s[k] !in stop) && (j < n ==> s[j] in stop)
    decreases n - i
  {
    if i == n || s[i] in stop then i else Scan(s, i + 1, n, stop)
  }

  /** The first position from i on, before n, that holds none of `over`; else n. */
  function Skip(s: string, i: nat, n: nat, over: set<char>): (j: nat)
    requires i <= n <= |s|
    ensures i <= j <= n && (forall k | i <= k < j :: s[k] in over) && (j < n ==> s[j] !in over)
    decreases n - i
  {
    if i == n || s[i] !in over then i else Skip(s, i + 1, n, over)
  }

  /** The text of a C string. */
  function CString(s: string): (t: string)
    ensures t <= s && NUL !in t && (|t| < |s| ==> s[|t|] == NUL)
  {
    s[..Scan(s, 0, |s|, {NUL})]
  }

  predicate At(s: string, p: string, i: nat) {
    i + |p| <= |s| && s[i..i + |p|] == p
  }

  /** The first occurrence of p in s from i on, or -1. */
  function Find(s: string, p: string, i: nat): (r: int)
    ensures r == -1 || (i <= r && At(s, p, r))
    ensures forall k: nat | i <= k && (r == -1 || k < r) :: !At(s, p, k)
    decreases |s| - i
  {
    if i + |p| > |s| then -1 else if At(s, p, i) then i else Find(s, p, i + 1)
  }

  predicate Contains(s: string, p: string) {
    Find(s, p, 0) != -1
  }

  // ---------- The session ----------

  /** The members that a request sets; the texts as C strings, the host part as the whole buffer. */
  datatype Session = Session(
    cmd: Cmd,
    rtpPort: nat,
    rtcpPort: nat,
    tcp: bool,
    preSuffix: string,
    suffix: string,
    cseq: string,
    hostPort: string)

  datatype Outcome = Outcome(ok: bool, session: Session)

  /** A cleared host buffer. */
  function Cleared(): (b: string)
    ensures |b| == BUFFER_SIZE && forall k | 0 <= k < |b| :: b[k] == NUL
  {
    seq(BUFFER_SIZE, i => NUL)
  }

  /** The members after construction. */
  function FreshConnection(): Session {
    Session(UNKNOWN, 0, 0, false, "", "", "", Cleared())
  }

  // ---------- Lines 331-361: the ports ----------

  function Digits(s: string): int {
    if s == [] then 0 else Digits(s[..|s| - 1]) * 10 + (s[|s| - 1] as int - '0' as int)
  }

  const WHITE := {' ', '\t', '\n', '\r', '\U{0B}', '\U{0C}'}
  const DIGITS := {'0', '1', '2', '3', '4', '5', '6', '7', '8', '9'}

  /** `atoi`, without a bound. */
  function Atoi(s: string): int {
    var i := Skip(s, 0, |s|, WHITE);
    var signed := i < |s| && (s[i] == '-' || s[i] == '+');
    var from := if signed then i + 1 else i;
    var n := Digits(s[from..Skip(s, from, |s|, DIGITS)]);
    if signed && s[i] == '-' then -n else n
  }

  /** Where "client_port" is in the buffer, and where its line ends; -1 if not there. */
  function PortLine(buffer: string): (r: (int, int))
    ensures r.1 != -1 ==> 0 <= r.0 <= r.1 < |buffer|
  {
    var text := CString(buffer);
    var c := Find(text, "client_port", 0);
    (c, if c == -1 then -1 else Find(text, "\r\n", c))
  }

  /** The local buffer CP holds the line. */
  predicate LineFits(buffer: string) {
    var (c, e) := PortLine(buffer);
    e != -1 ==> e - c < 1024
  }

  /** The line's end is overwritten. */
  function CutLine(buffer: string): (r: string)
    ensures |r| == |buffer|
  {
    var (c, e) := PortLine(buffer);
    if e == -1 then buffer else buffer[e := NUL]
  }

  /** The port after the first '=' and before the next '-'. */
  function PortIn(line: string): (r: int)
    ensures r == -1 || 0 <= r < 0x1_0000
  {
    var q := Find(line, "=", 0);
    if q == -1 then -1
    else
      var value := line[q + 1..];
      var d := Find(value, "-", 0);
      if d == -1 then -1 else Atoi(value[..d]) % 0x1_0000
  }

  function WithPorts(s: Session, buffer: string): (t: Session)
    ensures t.hostPort == s.hostPort
  {
    var (c, e) := PortLine(buffer);
    var port := if e == -1 then -1 else PortIn(buffer[c..e]);
    if port == -1 then s else s.(rtpPort := port, rtcpPort := (port + 1) % 0x1_0000)
  }

  // ---------- Lines 363-392: the command ----------

  const BLANK := {' ', '\t'}

  function Name(c: Cmd): string
    requires !c.UNKNOWN?
  {
    match c
    case OPTIONS => "OPTIONS"
    case DESCRIBE => "DESCRIBE"
    case SETUP => "SETUP"
    case PLAY => "PLAY"
    case PAUSE => "PAUSE"
    case TEARDOWN => "TEARDOWN"
  }

  /** A name with none of the six in it leaves the command of the request before. */
  function TypeOf(name: string, before: Cmd): Cmd {
    if Contains(name, "OPTIONS") then OPTIONS
    else if Contains(name, "DESCRIBE") then DESCRIBE
    else if Contains(name, "SETUP") then SETUP
    else if Contains(name, "PLAY") then PLAY
    else if Contains(name, "PAUSE") then PAUSE
    else if Contains(name, "TEARDOWN") then TEARDOWN
    else before
  }

  function NameLimit(size: nat): nat {
    if size < PARAM_MAX - 1 then size else PARAM_MAX - 1
  }

  function WithCommand(s: Session, cur: string, i: nat): (t: Session)
    requires i <= |cur|
    ensures t.hostPort == s.hostPort
  {
    var cmd := TypeOf(CString(cur[..i]), s.cmd);
    s.(cmd := cmd, tcp := if cmd == SETUP then Contains(CString(cur), "RTP/AVP/TCP") else s.tcp)
  }

  // ---------- Lines 394-421: the host ----------

  /** Letters of the scheme in either case. */
  function Fold(c: char): char {
    if c == 'R' then 'r' else if c == 'T' then 't' else if c == 'S' then 's' else if c == 'P' then 'p' else c
  }

  predicate SchemeAt(s: string, j: nat) {
    && j + 6 <= |s|
    && Fold(s[j]) == 'r' && Fold(s[j + 1]) == 't' && Fold(s[j + 2]) == 's' && Fold(s[j + 3]) == 'p'
    && s[j + 4] == ':' && s[j + 5] == '/'
  }

  lemma SchemeChars(s: string, j: nat)
    ensures SchemeAt(s, j) <==>
      && j + 6 <= |s|
      && (s[j] == 'r' || s[j] == 'R') && (s[j + 1] == 't' || s[j + 1] == 'T')
      && (s[j + 2] == 's' || s[j + 2] == 'S') && (s[j + 3] == 'p' || s[j + 3] == 'P')
      && s[j + 4] == ':' && s[j + 5] == '/'
  {
  }

  /** The first "rtsp:/" from j on that ends before n, or n. */
  function FindScheme(s: string, j: nat, n: nat): (r: nat)
    requires n <= |s|
    ensures r == n || (j <= r && r + 6 <= n && SchemeAt(s, r))
    ensures forall k: nat | j <= k < r && k + 6 <= n :: !SchemeAt(s, k)
    decreases n - j
  {
    if j + 6 > n then n else if SchemeAt(s, j) then j else FindScheme(s, j + 1, n)
  }

  function Overwrite(buffer: string, text: string): (r: string)
    requires |text| <= |buffer|
    ensures |r| == |buffer|
  {
    text + buffer[|text|..]
  }

  lemma OverwriteNone(buffer: string)
    ensures Overwrite(buffer, []) == buffer
  {
  }

  lemma OverwriteMore(buffer: string, text: string, c: char)
    requires |text| < |buffer|
    ensures Overwrite(buffer, text + [c]) == Overwrite(buffer, text)[|text| := c]
  {
  }

  /** The position before the path, and the session with the host part of an "rtsp://" URL; the host
      buffer gets no terminator. */
  function WithHost(s: Session, cur: string, size: nat, i: nat): (r: (Session, nat))
    requires i <= size <= |cur| && size <= |s.hostPort|
    ensures i <= r.1 <= size && |r.0.hostPort| == |s.hostPort|
  {
    var from := if i < size then Skip(cur, i + 1, size, BLANK) else size;
    var limit := if size < 3 then 0 else size - 3;
    var j := FindScheme(cur, from, limit);
    if j == limit then (s, i)
    else if cur[j + 6] != '/' then (s, j + 5)
    else
      var e := Scan(cur, j + 7, size, {'/', ' '});
      (s.(hostPort := Overwrite(s.hostPort, cur[j + 7..e])), e)
  }

  // ---------- Lines 423-450: the path ----------

  /** The last position from i on, before k, that holds no space; else i - 1. */
  function BackOverSpaces(s: string, i: nat, k: nat): (r: int)
    requires i <= k <= |s|
    ensures i - 1 <= r < k && (forall x | r < x < k :: s[x] == ' ') && (i <= r ==> s[r] != ' ')
    decreases k
  {
    if k == i || s[k - 1] != ' ' then k - 1 else BackOverSpaces(s, i, k - 1)
  }

  /** The last slash after i, up to k; else i, or k if that is before. */
  function BackToSlash(s: string, i: nat, k: int): (r: int)
    requires k < |s|
    ensures r <= k && (r == k <= i || i <= r)
    ensures (forall x | i < x <= k && r < x :: s[x] != '/') && (i < r ==> s[r] == '/')
    decreases k - i
  {
    if k <= i || s[k] == '/' then k else BackToSlash(s, i, k - 1)
  }

  /** The path from i, ending at k, in two parts at the last slash; each has to fit its buffer, and there
      has to be a path. */
  function WithEnds(s: Session, cur: string, i: nat, k: int, slash: int): (r: (Session, bool))
    requires 0 < i <= |cur| && i - 1 <= k < |cur| && slash <= k && (slash == k || i <= slash)
    ensures r.0.hostPort == s.hostPort && (r.1 ==> i <= k)
  {
    if k - slash + 1 > PARAM_MAX then (s, false)
    else
      var t := s.(suffix := CString(cur[slash + 1..k + 1]));
      if slash < i || slash - i > PARAM_MAX then (t, false)
      else (t.(preSuffix := CString(cur[i + 1..if slash == i then i + 1 else slash])), true)
  }

  /** The session with the two parts of the path, whether they were found and fit, and the position from
      which the headers are searched. */
  function WithPath(s: Session, cur: string, size: nat, i: nat): (r: (Session, bool, nat))
    requires 0 < i <= size <= |cur|
    ensures r.0.hostPort == s.hostPort
  {
    var h := if size == 0 then -1 else Find(cur[..size - 1], "RTSP/", i + 1);
    if h == -1 then (s, false, 0)
    else
      var k := BackOverSpaces(cur, i, h);
      var slash := BackToSlash(cur, i, k);
      var (t, fits) := WithEnds(s, cur, i, k, slash);
      (t, fits, if fits then k + 7 else 0)
  }

  // ---------- Lines 452-477: the sequence number ----------

  function ValueLimit(j: nat, size: nat): nat {
    if j + PARAM_MAX - 1 < size then j + PARAM_MAX - 1 else size
  }

  function WithCSeq(s: Session, cur: string, size: nat, i: nat): (o: Outcome)
    requires 0 < size <= |cur|
    ensures o.session.hostPort == s.hostPort
  {
    var h := Find(cur[..size - 1], "CSeq:", i);
    if h == -1 then Outcome(false, s)
    else
      var j := Skip(cur, h + 5, size, BLANK);
      var e := Scan(cur, j, ValueLimit(j, size), {'\r', '\n'});
      Outcome(e < ValueLimit(j, size), s.(cseq := CString(cur[j..e])))
  }

  // ---------- The whole ----------

  /** The request is in the first `size` bytes of the buffer; what follows was there before. */
  predicate Acceptable(buffer: string, size: nat) {
    && 0 < size <= |buffer| == BUFFER_SIZE
    && buffer[0] !in BLANK
    && NUL in buffer
    && LineFits(buffer)
  }

  function AfterName(s: Session, cur: string, size: nat, i: nat): (o: Outcome)
    requires 0 < i < size <= |cur| && size <= |s.hostPort|
    ensures |o.session.hostPort| == |s.hostPort|
  {
    var (t, p) := WithHost(WithCommand(s, cur, i), cur, size, i);
    var (u, found, h) := WithPath(t, cur, size, p);
    if !found then Outcome(false, u) else WithCSeq(u, cur, size, h)
  }

  function Parse(s: Session, buffer: string, size: nat): (o: Outcome)
    requires Acceptable(buffer, size) && |s.hostPort| == BUFFER_SIZE
    ensures |o.session.hostPort| == BUFFER_SIZE
  {
    var t := WithPorts(s, buffer);
    var cur := CutLine(buffer);
    var i := Scan(cur, 0, NameLimit(size), BLANK);
    if i == NameLimit(size) then Outcome(false, t)
    else CutKeepsFirst(buffer); AfterName(t, cur, size, i)
  }

  lemma CutKeepsFirst(buffer: string)
    requires |buffer| > 0 && buffer[0] !in BLANK
    ensures CutLine(buffer)[0] !in BLANK
  {
  }

  // ---------- The class ----------

  lemma CStringIs(s: string, n: nat)
    requires n <= |s| && NUL !in s[..n] && (n < |s| ==> s[n] == NUL)
    ensures CString(s) == s[..n]
  {
    assert forall k | 0 <= k < n :: s[k] == s[..n][k] != NUL;
  }

  lemma Terminated(buffer: string, text: string)
    requires |text| < |buffer| && buffer[..|text|] == text && buffer[|text|] == NUL
    ensures CString(buffer) == CString(text)
  {
    var n := |CString(text)|;
    assert buffer[..n] == text[..n] == CString(text);
    assert n < |text| ==> buffer[n] == text[n];
    CStringIs(buffer, n);
  }

  lemma At5(s: string, p: string, k: nat)
    requires |p| == 5
    ensures At(s, p, k) <==>
      && k + 5 <= |s| && s[k] == p[0] && s[k + 1] == p[1] && s[k + 2] == p[2] && s[k + 3] == p[3]
      && s[k + 4] == p[4]
  {
    if k + 5 <= |s| {
      assert s[k..k + 5] == [s[k], s[k + 1], s[k + 2], s[k + 3], s[k + 4]];
      assert p == [p[0], p[1], p[2], p[3], p[4]];
    }
  }

  class TcpConnection {
    const urlPreSuffix: array<char>
    const urlSuffix: array<char>
    const cseq: array<char>
    const urlHostPort: array<char>
    var rtspCmdType: Cmd
    var clientRTPPort: nat
    var clientRTCPPort: nat
    var tcpTransport: bool

    ghost predicate Valid() {
      && urlPreSuffix.Length == urlSuffix.Length == cseq.Length == PARAM_MAX && urlHostPort.Length == BUFFER_SIZE
      && urlPreSuffix != urlSuffix && urlPreSuffix != cseq && urlSuffix != cseq
    }

    ghost function Buffers(): set<object> {
      {urlPreSuffix, urlSuffix, cseq, urlHostPort}
    }

    ghost function Abstract(): (s: Session)
      reads this, urlPreSuffix, urlSuffix, cseq, urlHostPort
    {
      Session(rtspCmdType, clientRTPPort, clientRTCPPort, tcpTransport,
              CString(urlPreSuffix[..]), CString(urlSuffix[..]), CString(cseq[..]), urlHostPort[..])
    }

    /** Lines 14-34. */
    constructor ()
      ensures Valid() && fresh(Buffers()) && Abstract() == FreshConnection()
    {
      urlPreSuffix := new char[PARAM_MAX](i => NUL);
      urlSuffix := new char[PARAM_MAX](i => NUL);
      cseq := new char[PARAM_MAX](i => NUL);
      urlHostPort := new char[BUFFER_SIZE](i => NUL);
      rtspCmdType, clientRTPPort, clientRTCPPort, tcpTransport := UNKNOWN, 0, 0, false;
    }

    /** Lines 337-361; `strstr`, `strcpy` and `atoi` are the functions above. */
    method ReadPorts(cur: array<char>)
      requires Valid() && cur !in Buffers() && NUL in cur[..] && LineFits(cur[..])
      modifies `clientRTPPort, `clientRTCPPort, cur
      ensures cur[..] == CutLine(old(cur[..]))
      ensures Abstract() == WithPorts(old(Abstract()), old(cur[..]))
    {
      hide CString, Find, Atoi;
      ghost var before := cur[..];
      var text := CString(cur[..]);
      var clientPort := Find(text, "client_port", 0);
      if clientPort != -1 {
        var tmp := Find(text, "\r\n", clientPort);
        if tmp != -1 {
          cur[tmp] := NUL;
          var cp := text[clientPort..tmp];
          assert cp == before[clientPort..tmp];
          assert cur[..] == before[tmp := NUL];
          var p := Find(cp, "=", 0);
          if p != -1 {
            cp := cp[p + 1..];
            p := Find(cp, "-", 0);
            if p != -1 {
              clientRTPPort := Atoi(cp[..p]) % 0x1_0000;
              clientRTCPPort := (clientRTPPort + 1) % 0x1_0000;
            }
          }
        }
      }
    }

    /** Lines 363-377: copies up to the first blank. */
    method ReadName(cur: array<char>, size: nat) returns (found: bool, i: nat, name: string)
      requires size <= cur.Length
      ensures i == Scan(cur[..], 0, NameLimit(size), BLANK) && found == (i < NameLimit(size))
      ensures name == cur[..i]
    {
      found, i, name := false, 0, "";
      while i < PARAM_MAX - 1 && i < size
        invariant i <= NameLimit(size) && name == cur[..i] && !found
        invariant Scan(cur[..], 0, NameLimit(size), BLANK) == Scan(cur[..], i, NameLimit(size), BLANK)
      {
        var c := cur[i];
        if c == ' ' || c == '\t' {
          found := true;
          break;
        }
        name := name + [c];
        i := i + 1;
      }
    }

    /** Lines 379-392. */
    method ReadCommand(cur: array<char>, i: nat, name: string)
      requires i <= cur.Length && name == cur[..i]
      modifies `rtspCmdType, `tcpTransport
      ensures Abstract() == WithCommand(old(Abstract()), cur[..], i)
    {
      var n := CString(name);
      if Contains(n, "OPTIONS") { rtspCmdType := OPTIONS; }
      else if Contains(n, "DESCRIBE") { rtspCmdType := DESCRIBE; }
      else if Contains(n, "SETUP") { rtspCmdType := SETUP; }
      else if Contains(n, "PLAY") { rtspCmdType := PLAY; }
      else if Contains(n, "PAUSE") { rtspCmdType := PAUSE; }
      else if Contains(n, "TEARDOWN") { rtspCmdType := TEARDOWN; }
      if rtspCmdType == SETUP {
        tcpTransport := Contains(CString(cur[..]), "RTP/AVP/TCP");
      }
    }

    /** Lines 395-404: the first "rtsp:/" after the blanks. */
    method FindUrl(cur: array<char>, size: nat, start: nat) returns (found: bool, j: nat)
      requires start < size <= cur.Length
      ensures
        var limit := if size < 3 then 0 else size - 3;
        var r := FindScheme(cur[..], Skip(cur[..], start + 1, size, BLANK), limit);
        found == (r != limit) && (found ==> j == r)
    {
      hide SchemeAt, Fold;
      found := false;
      j := SkipBlanks(cur, start + 1, size);
      ghost var from := j;
      ghost var limit: nat := if size < 3 then 0 else size - 3;
      while j < size - 8
        invariant j <= size && FindScheme(cur[..], from, limit) == FindScheme(cur[..], j, limit)
      {
        SchemeChars(cur[..], j);
        if (cur[j] == 'r' || cur[j] == 'R') && (cur[j + 1] == 't' || cur[j + 1] == 'T')
           && (cur[j + 2] == 's' || cur[j + 2] == 'S') && (cur[j + 3] == 'p' || cur[j + 3] == 'P')
           && cur[j + 4] == ':' && cur[j + 5] == '/' {
          found := true;
          return;
        }
        j := j + 1;
      }
    }

    /** Lines 394-421. */
    method ReadHost(cur: array<char>, size: nat, start: nat) returns (i: nat)
      requires Valid() && cur !in Buffers() && start < size <= cur.Length && size <= BUFFER_SIZE
      modifies urlHostPort
      ensures (Abstract(), i) == WithHost(old(Abstract()), cur[..], size, start)
    {
      hide Skip, FindScheme, CString, Overwrite;
      i := start;
      var found, j := FindUrl(cur, size, start);
      if found {
        j := j + 6;
        if cur[j] == '/' {
          j := CopyHost(cur, size, j + 1);
        } else {
          j := j - 1;
        }
        i := j;
      }
    }

    /** Lines 409-415. */
    method CopyHost(cur: array<char>, size: nat, from: nat) returns (j: nat)
      requires Valid() && cur !in Buffers() && from <= size <= cur.Length && size <= BUFFER_SIZE
      modifies urlHostPort
      ensures j == Scan(cur[..], from, size, {'/', ' '})
      ensures urlHostPort[..] == Overwrite(old(urlHostPort[..]), cur[from..j])
    {
      hide Overwrite;
      j := from;
      var uidx := 0;
      OverwriteNone(urlHostPort[..]);
      assert cur[from..from] == [];
      while j < size && cur[j] != '/' && cur[j] != ' '
        invariant from <= j <= size && uidx == j - from
        invariant Scan(cur[..], from, size, {'/', ' '}) == Scan(cur[..], j, size, {'/', ' '})
        invariant urlHostPort[..] == Overwrite(old(urlHostPort[..]), cur[from..j])
      {
        OverwriteMore(old(urlHostPort[..]), cur[from..j], cur[j]);
        assert cur[from..j + 1] == cur[from..j] + [cur[j]];
        urlHostPort[uidx] := cur[j];
        uidx := uidx + 1;
        j := j + 1;
      }
    }

    /** The copying loops of lines 437-443. */
    method CopyText(cur: array<char>, from: nat, to: nat, target: array<char>)
      requires cur != target && from <= to <= cur.Length && to - from < target.Length
      modifies target
      ensures CString(target[..]) == CString(cur[..][from..to])
    {
      var n, k2 := 0, from;
      while k2 < to
        invariant from <= k2 <= to && n == k2 - from && target[..n] == cur[from..k2]
      {
        target[n] := cur[k2];
        n, k2 := n + 1, k2 + 1;
      }
      target[n] := NUL;
      Terminated(target[..], cur[from..to]);
      assert cur[..][from..to] == cur[from..to];
    }

    /** Lines 425-429. */
    method FindProtocol(cur: array<char>, size: nat, start: nat) returns (found: bool, k: nat)
      requires 0 < size <= cur.Length
      ensures
        var h := Find(cur[..][..size - 1], "RTSP/", start);
        found == (h != -1) && (found ==> k == h && k + 5 < size)
    {
      hide At;
      found, k := false, start;
      ghost var line := cur[..][..size - 1];
      while k < size - 5
        invariant start <= k && Find(line, "RTSP/", start) == Find(line, "RTSP/", k)
      {
        At5(line, "RTSP/", k);
        if cur[k] == 'R' && cur[k + 1] == 'T' && cur[k + 2] == 'S' && cur[k + 3] == 'P' && cur[k + 4] == '/' {
          found := true;
          return;
        }
        k := k + 1;
      }
    }

    /** Lines 431-433: the last character of the path, and its last slash. */
    method EndsOfPath(cur: array<char>, start: nat, h: nat) returns (k: int, k1: int)
      requires 0 < start <= h <= cur.Length
      ensures k == BackOverSpaces(cur[..], start, h) && k1 == BackToSlash(cur[..], start, k)
    {
      k := h - 1;
      while k >= start && cur[k] == ' '
        invariant start - 1 <= k < h
        invariant BackOverSpaces(cur[..], start, h) == BackOverSpaces(cur[..], start, k + 1)
      {
        k := k - 1;
      }
      k1 := k;
      while k1 > start && cur[k1] != '/'
        invariant k1 <= k && (k >= start ==> k1 >= start)
        invariant BackToSlash(cur[..], start, k) == BackToSlash(cur[..], start, k1)
      {
        k1 := k1 - 1;
      }
    }

    /** Lines 423-450; i is then where the headers are searched from. */
    method ReadPath(cur: array<char>, size: nat, start: nat) returns (found: bool, i: nat)
      requires Valid() && cur !in Buffers() && 0 < start <= size <= cur.Length
      modifies urlSuffix, urlPreSuffix
      ensures
        var (t, f, h) := WithPath(old(Abstract()), cur[..], size, start);
        Abstract() == t && found == f && (found ==> i == h)
    {
      hide CString, Find, At, BackOverSpaces, BackToSlash;
      i := start;
      var h;
      found, h := FindProtocol(cur, size, start + 1);
      if !found {
        return;
      }
      var k, k1 := EndsOfPath(cur, start, h);
      found := StorePath(cur, start, k, k1);
      if found {
        i := k + 7;
      }
    }

    /** Lines 434-445. */
    method StorePath(cur: array<char>, start: nat, k: int, k1: int) returns (found: bool)
      requires Valid() && cur !in Buffers()
      requires 0 < start <= cur.Length && start - 1 <= k < cur.Length && k1 <= k && (k1 == k || start <= k1)
      modifies urlSuffix, urlPreSuffix
      ensures (Abstract(), found) == WithEnds(old(Abstract()), cur[..], start, k, k1)
    {
      hide CString;
      found := false;
      if k - k1 + 1 > PARAM_MAX {
        return;
      }
      CopyText(cur, k1 + 1, k + 1, urlSuffix);
      if k1 < start || k1 - start > PARAM_MAX {
        return;
      }
      CopyText(cur, start + 1, if k1 == start then start + 1 else k1, urlPreSuffix);
      found := true;
    }

    /** Lines 454-458. */
    method FindSequence(cur: array<char>, size: nat, start: nat) returns (found: bool, j: nat)
      requires 0 < size <= cur.Length
      ensures
        var h := Find(cur[..][..size - 1], "CSeq:", start);
        found == (h != -1) && (found ==> j == h && j + 5 < size)
    {
      hide At;
      found, j := false, start;
      ghost var line := cur[..][..size - 1];
      while j < size - 5
        invariant start <= j && Find(line, "CSeq:", start) == Find(line, "CSeq:", j)
      {
        At5(line, "CSeq:", j);
        if cur[j] == 'C' && cur[j + 1] == 'S' && cur[j + 2] == 'e' && cur[j + 3] == 'q' && cur[j + 4] == ':' {
          found := true;
          return;
        }
        j := j + 1;
      }
    }

    /** Lines 452-477. */
    method ReadCSeq(cur: array<char>, size: nat, i: nat) returns (found: bool)
      requires Valid() && cur !in Buffers() && 0 < size <= cur.Length
      modifies cseq
      ensures Outcome(found, Abstract()) == WithCSeq(old(Abstract()), cur[..], size, i)
    {
      hide CString, Find, At, Skip, Scan, ValueLimit;
      var j;
      found, j := FindSequence(cur, size, i);
      if found {
        found := CopyCSeq(cur, size, j + 5);
      }
    }

    /** Lines 396 and 461: skips blanks. */
    method SkipBlanks(cur: array<char>, start: nat, size: nat) returns (j: nat)
      requires start <= size <= cur.Length
      ensures j == Skip(cur[..], start, size, BLANK)
    {
      j := start;
      while j < size && (cur[j] == ' ' || cur[j] == '\t')
        invariant j <= size && Skip(cur[..], start, size, BLANK) == Skip(cur[..], j, size, BLANK)
      {
        j := j + 1;
      }
    }

    /** Lines 461-473. */
    method CopyCSeq(cur: array<char>, size: nat, start: nat) returns (found: bool)
      requires Valid() && cur !in Buffers() && start <= size <= cur.Length
      modifies cseq
      ensures
        var j := Skip(cur[..], start, size, BLANK);
        var e := Scan(cur[..], j, ValueLimit(j, size), {'\r', '\n'});
        found == (e < ValueLimit(j, size)) && CString(cseq[..]) == CString(cur[..][j..e])
    {
      hide CString, Skip, Scan;
      var first := SkipBlanks(cur, start, size);
      var j;
      found, j := CopyValue(cur, size, first);
      Terminated(cseq[..], cur[first..j]);
      assert cur[..][first..j] == cur[first..j];
    }

    /** Lines 463-473: copies up to the end of the line. */
    method CopyValue(cur: array<char>, size: nat, first: nat) returns (found: bool, j: nat)
      requires Valid() && cur !in Buffers() && first <= size <= cur.Length
      modifies cseq
      ensures j == Scan(cur[..], first, ValueLimit(first, size), {'\r', '\n'}) && found == (j < ValueLimit(first, size))
      ensures j - first < PARAM_MAX && cseq[..j - first] == cur[first..j] && cseq[j - first] == NUL
    {
      found, j := false, first;
      ghost var limit := ValueLimit(j, size);
      var n := 0;
      while n < PARAM_MAX - 1 && j < size
        invariant first <= j <= limit && n == j - first && !found
        invariant cseq[..n] == cur[first..j]
        invariant Scan(cur[..], first, limit, {'\r', '\n'}) == Scan(cur[..], j, limit, {'\r', '\n'})
      {
        var c := cur[j];
        if c == '\r' || c == '\n' {
          found := true;
          break;
        }
        cseq[n] := c;
        n, j := n + 1, j + 1;
      }
      cseq[n] := NUL;
    }

    /** Lines 322-498 without the content length, which nothing reads. `cur` is the stack memory of the
        local buffer CurRequest, with whatever it held before. */
    method ParseRtspRequest(aRequest: array<char>, aRequestSize: nat, cur: array<char>) returns (ok: bool)
      requires Valid() && cur !in Buffers() && cur != aRequest && cur.Length == BUFFER_SIZE
      requires aRequestSize <= aRequest.Length && aRequestSize <= BUFFER_SIZE
      requires Acceptable(aRequest[..aRequestSize] + cur[aRequestSize..], aRequestSize)
      modifies this, urlPreSuffix, urlSuffix, cseq, urlHostPort, cur
      ensures
        Outcome(ok, Abstract())
        == Parse(old(Abstract()), old(aRequest[..aRequestSize] + cur[aRequestSize..]), aRequestSize)
    {
      hide CString, WithPorts, CutLine, WithCommand, WithHost, WithPath, WithCSeq, LineFits, Find, Scan;
      ghost var buffer := aRequest[..aRequestSize] + cur[aRequestSize..];
      forall k | 0 <= k < aRequestSize {
        cur[k] := aRequest[k];
      }
      assert cur[..] == buffer;
      CutKeepsFirst(buffer);
      ReadPorts(cur);
      var found, i, name := ReadName(cur, aRequestSize);
      if !found {
        return false;
      }
      ReadCommand(cur, i, name);
      i := ReadHost(cur, aRequestSize, i);
      found, i := ReadPath(cur, aRequestSize, i);
      if !found {
        return false;
      }
      ok := ReadCSeq(cur, aRequestSize, i);
    }

    /** Lines 67-80; `answered` stands for the call of a handler. The type of the command is returned even
        if the request was refused. */
    method HandleRtspRequest(aRequest: array<char>, aRequestSize: nat, cur: array<char>)
      returns (c: Cmd, answered: bool)
      requires Valid() && cur !in Buffers() && cur != aRequest && cur.Length == BUFFER_SIZE
      requires aRequestSize <= aRequest.Length && aRequestSize <= BUFFER_SIZE
      requires Acceptable(aRequest[..aRequestSize] + cur[aRequestSize..], aRequestSize)
      modifies this, urlPreSuffix, urlSuffix, cseq, urlHostPort, cur
      ensures
        var o := Parse(old(Abstract()), old(aRequest[..aRequestSize] + cur[aRequestSize..]), aRequestSize);
        Abstract() == o.session && c == o.session.cmd && answered == (o.ok && !c.TEARDOWN? && !c.UNKNOWN?)
    {
      hide Parse, Acceptable, CString;
      answered := ParseRtspRequest(aRequest, aRequestSize, cur);
      if answered {
        match rtspCmdType {
          case OPTIONS =>
          case DESCRIBE =>
          case SETUP =>
          case PLAY =>
          case PAUSE =>
          case _ => answered := false;
        }
      }
      c := rtspCmdType;
    }
  }
}
