/** src/libs/Streamer.cpp, lines 41-76: the search for a pair of UDP ports. */
module Streamer {
  /** `u_short`: that the loop counter stays in range is part of the proof. */
  newtype u16 = x: int | 0 <= x < 0x1_0000

  const FIRST_PORT: u16 := 6970
  const LIMIT: u16 := 0xFFFE

  /** Whether `bind` takes the port. */
  predicate Free(busy: set<u16>, open: map<nat, u16>, port: u16) {
    port !in busy && port !in open.Values
  }

  /** The sockets of the process. `bind` fails on a port that another process holds, or an open socket. */
  class Sockets {
    const busy: set<u16>
    var open: map<nat, u16>             // the port of each open socket; 0 is unbound
    var next: nat

    ghost predicate Valid()
      reads this
    {
      && (forall fd | fd in open :: fd < next)
      && (forall fd | fd in open :: open[fd] != 0 ==> open[fd] !in busy)
      && (forall fd, e | fd in open && e in open && fd != e && open[fd] != 0 :: open[fd] != open[e])
    }

    ghost function Taken(): set<u16>
      reads this
    {
      busy + open.Values
    }

    lemma NextIsNew()
      requires Valid()
      ensures next !in open && next + 1 !in open
    {
    }

    lemma AfterPair(before: map<nat, u16>, taken: set<u16>, a: nat, b: nat, p: u16)
      requires taken == busy + before.Values && a !in before && b !in before && a != b && 0 < p < LIMIT
      requires open == before[a := p][b := p + 1]
      ensures Taken() == taken + {p, p + 1} && |Taken()| <= |taken| + 2
    {
      PairInMap(busy, before, a, b, p);
      assert busy + (before.Values + {p, p + 1}) == taken + {p, p + 1};
      UnionSize(taken, p, p + 1);
    }

    constructor (others: set<u16>)
      ensures Valid() && busy == others && open == map[]
    {
      busy, open, next := others, map[], 0;
    }

    method Socket() returns (fd: nat)
      requires Valid()
      modifies this
      ensures Valid() && fd == old(next) && next == old(next) + 1 && fd !in old(open) && open == old(open)[fd := 0]
    {
      fd := next;
      open, next := open[fd := 0], next + 1;
    }

    method Bind(fd: nat, port: u16) returns (ok: bool)
      requires Valid() && fd in open && port != 0
      modifies this
      ensures Valid() && next == old(next)
      ensures ok <==> Free(busy, old(open), port)
      ensures ok ==> open == old(open)[fd := port]
      ensures !ok ==> open == old(open)
    {
      ok := port !in busy && port !in open.Values;
      if ok {
        open := open[fd := port];
      }
    }

    method Close(fd: nat)
      requires Valid() && fd in open
      modifies this
      ensures Valid() && next == old(next) && open == old(open) - {fd}
    {
      open := open - {fd};
    }
  }

  predicate FreePair(taken: set<u16>, p: u16) {
    FIRST_PORT <= p < LIMIT && p % 2 == 0 && p !in taken && p + 1 !in taken
  }

  ghost predicate SomeFree(taken: set<u16>) {
    exists p :: FreePair(taken, p)
  }

  ghost predicate LeastFree(taken: set<u16>, p: u16) {
    FreePair(taken, p) && forall q | FreePair(taken, q) :: p <= q
  }

  class Streamer {
    var rtpClientPort: u16
    var rtcpClientPort: u16
    var tcpTransport: bool
    var rtpSocket: nat
    var rtcpSocket: nat
    var rtpServerPort: u16
    var rtcpServerPort: u16

    constructor ()
    {
    }

    /** Over UDP the least free pair is taken, on two new sockets, and no other socket is left open; if
        no pair is free, all sockets opened on the way are closed and the server ports stay as they
        were, which nothing reports to the caller. Over TCP nothing is opened. */
    method InitTransport(sockets: Sockets, aRtpPort: u16, aRtcpPort: u16, tcp: bool)
      requires sockets.Valid()
      modifies this, sockets
      ensures sockets.Valid()
      ensures rtpClientPort == aRtpPort && rtcpClientPort == aRtcpPort && tcpTransport == tcp
      ensures tcp || !SomeFree(old(sockets.Taken())) ==>
        && sockets.open == old(sockets.open)
        && rtpServerPort == old(rtpServerPort) && rtcpServerPort == old(rtcpServerPort)
      ensures !tcp && SomeFree(old(sockets.Taken())) ==>
        && LeastFree(old(sockets.Taken()), rtpServerPort) && rtcpServerPort == rtpServerPort + 1
        && rtpSocket !in old(sockets.open) && rtcpSocket !in old(sockets.open) && rtpSocket != rtcpSocket
        && sockets.open == old(sockets.open)[rtpSocket := rtpServerPort][rtcpSocket := rtcpServerPort]
    {
      rtpClientPort, rtcpClientPort, tcpTransport := aRtpPort, aRtcpPort, tcp;
      if !tcpTransport {
        ghost var taken := sockets.Taken();
        var p := FIRST_PORT;
        while p < LIMIT
          invariant FIRST_PORT <= p <= LIMIT && p % 2 == 0
          invariant sockets.Valid() && sockets.open == old(sockets.open)
          invariant forall q | FreePair(taken, q) :: p <= q
          invariant rtpClientPort == aRtpPort && rtcpClientPort == aRtcpPort && tcpTransport == tcp
          invariant rtpServerPort == old(rtpServerPort) && rtcpServerPort == old(rtcpServerPort)
          decreases LIMIT - p
        {
          var ok := TryPair(sockets, p);
          if ok {
            assert FreePair(taken, p);
            rtpServerPort := p;
            rtcpServerPort := p + 1;
            break;
          }
          assert !FreePair(taken, p);
          p := p + 2;
        }
      }
    }

    /** Lines 55-73: opens two sockets and binds them, or closes again what it opened. */
    method TryPair(sockets: Sockets, p: u16) returns (ok: bool)
      requires sockets.Valid() && FIRST_PORT <= p < LIMIT
      modifies `rtpSocket, `rtcpSocket, sockets
      ensures sockets.Valid()
      ensures ok <==> Free(sockets.busy, old(sockets.open), p) && Free(sockets.busy, old(sockets.open), p + 1)
      ensures !ok ==> sockets.open == old(sockets.open)
      ensures ok ==>
        && rtpSocket !in old(sockets.open) && rtcpSocket !in old(sockets.open) && rtpSocket != rtcpSocket
        && sockets.open == old(sockets.open)[rtpSocket := p][rtcpSocket := p + 1]
    {
      hide Sockets.Valid, Free;
      ghost var o: map<nat, u16> := sockets.open;
      sockets.NextIsNew();
      PairInMap(sockets.busy, o, sockets.next, sockets.next + 1, p);
      rtpSocket := sockets.Socket();
      assert Free(sockets.busy, sockets.open, p) == Free(sockets.busy, o, p);
      ok := sockets.Bind(rtpSocket, p);
      if ok {
        rtcpSocket := sockets.Socket();
        assert sockets.open == o[rtpSocket := p][rtcpSocket := 0];
        assert Free(sockets.busy, sockets.open, p + 1) == Free(sockets.busy, o, p + 1);
        ok := sockets.Bind(rtcpSocket, p + 1);
        if !ok {
          sockets.Close(rtpSocket);
          sockets.Close(rtcpSocket);
        }
      } else {
        sockets.Close(rtpSocket);
      }
    }
  }

  lemma Added(o: map<nat, u16>, fd: nat, port: u16)
    requires fd !in o
    ensures o[fd := port].Values == o.Values + {port}
    ensures o[fd := 0][fd := port] == o[fd := port] && o[fd := port] - {fd} == o
  {
    assert o[fd := port][fd] == port;
    forall x | x in o.Values ensures x in o[fd := port].Values {
      var e :| e in o && o[e] == x;
      assert o[fd := port][e] == x;
    }
  }

  lemma PairInMap(busy: set<u16>, o: map<nat, u16>, a: nat, b: nat, p: u16)
    requires a !in o && b !in o && a != b && 0 < p < LIMIT
    ensures o[a := 0] - {a} == o && o[a := 0][a := p] == o[a := p]
    ensures o[a := p][b := 0] - {a} - {b} == o
    ensures o[a := p][b := 0][b := p + 1] == o[a := p][b := p + 1]
    ensures o[a := p][b := p + 1].Values == o.Values + {p, p + 1}
    ensures Free(busy, o[a := 0], p) == Free(busy, o, p)
    ensures Free(busy, o[a := p][b := 0], p + 1) == Free(busy, o, p + 1)
  {
    Added(o, a, 0);
    Added(o, a, p);
    Added(o[a := p], b, 0);
    Added(o[a := p], b, p + 1);
    assert o[a := p][b := 0] - {a} - {b} == o[a := p][b := 0] - {b} - {a};
    assert o.Values + {p} + {p + 1} == o.Values + {p, p + 1};
  }

  // ---------- When the search succeeds ----------

  const PAIRS := 29282

  function Below(taken: set<u16>, p: u16): set<u16> {
    set x | x in taken && FIRST_PORT <= x < p
  }

  lemma {:induction false} EveryPairTakesOne(taken: set<u16>, p: u16)
    requires FIRST_PORT <= p <= LIMIT && p % 2 == 0
    requires forall q | q < p :: !FreePair(taken, q)
    ensures 2 * |Below(taken, p)| >= p as int - FIRST_PORT as int
    decreases p
  {
    if p > FIRST_PORT {
      EveryPairTakesOne(taken, p - 2);
      assert !FreePair(taken, p - 2);
      var x := if p - 2 in taken then p - 2 else p - 1;
      Grows(Below(taken, p - 2), Below(taken, p), x);
    }
  }

  lemma Grows(a: set<u16>, b: set<u16>, x: u16)
    requires a <= b && x in b && x !in a
    ensures |a| < |b|
  {
    Subset(a, b - {x});
  }

  lemma {:induction false} Subset(a: set<u16>, b: set<u16>)
    requires a <= b
    ensures |a| <= |b|
    decreases a
  {
    if a != {} {
      var x :| x in a;
      Subset(a - {x}, b - {x});
    }
  }

  lemma UnionSize(s: set<u16>, x: u16, y: u16)
    ensures |s + {x, y}| <= |s| + 2
  {
    assert s + {x, y} == s + {x} + {y};
  }

  /** Fewer than 29282 ports taken leave some pair free. */
  lemma FewTakenLeaveAPair(taken: set<u16>)
    requires |taken| < PAIRS
    ensures SomeFree(taken)
  {
    if !SomeFree(taken) {
      EveryPairTakesOne(taken, LIMIT);
      Subset(Below(taken, LIMIT), taken);
    }
  }

  // ---------- Several streams ----------

  lemma NextPairIsLater(taken: set<u16>, p: u16, q: u16)
    requires LeastFree(taken, p) && LeastFree(taken + {p, p + 1}, q)
    ensures p + 1 < q
  {
    assert FreePair(taken, q);
  }

  /** Two streams set up one after the other get four different ports, the second a later pair. */
  method TwoStreams(first: Streamer, second: Streamer, sockets: Sockets)
    requires sockets.Valid() && first != second && |sockets.Taken()| + 2 < PAIRS
    modifies first, second, sockets
    ensures sockets.Valid()
    ensures first.rtpServerPort < first.rtcpServerPort < second.rtpServerPort < second.rtcpServerPort
  {
    hide Sockets.Valid, SomeFree;
    ghost var open: map<nat, u16> := sockets.open;
    ghost var taken := sockets.Taken();
    FewTakenLeaveAPair(taken);
    first.InitTransport(sockets, 0, 0, false);
    var p := first.rtpServerPort;
    sockets.AfterPair(open, taken, first.rtpSocket, first.rtcpSocket, p);
    FewTakenLeaveAPair(sockets.Taken());
    second.InitTransport(sockets, 0, 0, false);
    NextPairIsLater(taken, p, second.rtpServerPort);
  }
}
