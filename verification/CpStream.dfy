/** The stream between parent and child: `read_exact`, `write_exact` and handle passing over a host
    that moves data in pieces, interrupts, fails or ends the stream. */
module CpStream {
  import opened Words

  const EINTR := 4
  const EAGAIN := 11
  const EINVAL := 22

  /** What the host does on one stream call: it moves up to `n` bytes, where 0 is the end of the
      stream, or it fails. The end of the stream has error number 0. */
  datatype Event = Move(n: nat) | Fail(err: nat)

  datatype Token = Data(b: byte) | Cargo(handle: u64)

  function Min(a: nat, b: nat): nat
  {
    if a < b then a else b
  }

  predicate Retried(e: Event)
  {
    e.Fail? && (e.err == EINTR || e.err == EAGAIN)
  }

  /** An event after which the transfer is given up. */
  predicate Stops(e: Event)
  {
    e == Move(0) || (e.Fail? && !Retried(e))
  }

  /** The stream does not end early and the host does not fail. */
  predicate Steady(sched: seq<Event>)
  {
    forall i :: 0 <= i < |sched| ==> !Stops(sched[i])
  }

  // ---------------------------------------------------------------- one transfer

  datatype Result = Result(moved: nat, ret: int, rest: seq<Event>)

  /** Transferring `left` bytes when `avail` bytes can be had. Calls after the end of the schedule
      move all they can. */
  function Transfer(sched: seq<Event>, left: nat, avail: nat): (r: Result)
    ensures r.moved <= left && r.moved <= avail && r.ret <= 0
    decreases |sched|
  {
    if left == 0 then Result(0, 0, sched)
    else if sched == [] then Result(Min(left, avail), 0, [])
    else match sched[0]
      case Move(n) =>
        var x := Min(n, Min(left, avail));
        if x == 0 then Result(0, 0, sched[1..])
        else var r := Transfer(sched[1..], left - x, avail - x); r.(moved := x + r.moved)
      case Fail(err) =>
        if Retried(sched[0]) then Transfer(sched[1..], left, avail) else Result(0, 0 - err, sched[1..])
  }

  /** The first event that gives up. */
  function FirstStop(sched: seq<Event>): (i: nat)
    ensures i <= |sched| && (i < |sched| ==> Stops(sched[i]))
    ensures forall j :: 0 <= j < i ==> !Stops(sched[j])
  {
    if sched == [] || Stops(sched[0]) then 0 else 1 + FirstStop(sched[1..])
  }

  /** The bytes moved by the first `i` events. */
  function Carried(sched: seq<Event>, i: nat): nat
    requires i <= |sched|
  {
    if i == 0 then 0 else Carried(sched, i - 1) + if sched[i - 1].Move? then sched[i - 1].n else 0
  }

  lemma {:induction false} CarriedTail(sched: seq<Event>, i: nat)
    requires 0 < i <= |sched|
    ensures Carried(sched, i) == (if sched[0].Move? then sched[0].n else 0) + Carried(sched[1..], i - 1)
  {
    if i > 1 { CarriedTail(sched, i - 1); }
  }

  /** How many events it takes to move `n` bytes. */
  function Dry(sched: seq<Event>, n: nat): (k: nat)
    ensures k <= |sched|
  {
    if n == 0 || sched == [] then 0
    else 1 + Dry(sched[1..], if sched[0].Move? then n - Min(n, sched[0].n) else n)
  }

  /** That is the first point at which that many have been moved. */
  lemma {:induction false} DryMeans(sched: seq<Event>, n: nat)
    ensures var k := Dry(sched, n);
      (k < |sched| ==> Carried(sched, k) >= n) && forall i :: 0 <= i < k ==> Carried(sched, i) < n
    decreases |sched|
  {
    if n > 0 && sched != [] {
      var n' := if sched[0].Move? then n - Min(n, sched[0].n) else n;
      var k := Dry(sched[1..], n');
      DryMeans(sched[1..], n');
      CarriedTail(sched, k + 1);
      forall i | 0 <= i < k + 1 ensures Carried(sched, i) < n {
        if i > 0 {
          CarriedTail(sched, i);
          assert Carried(sched[1..], i - 1) < n';
        }
      }
    }
  }

  /** The first event from `k` on that is not simply retried. */
  function Active(sched: seq<Event>, k: nat): (i: nat)
    requires k <= |sched|
    ensures k <= i <= |sched| && (i < |sched| ==> !Retried(sched[i]))
    ensures forall j :: k <= j < i ==> Retried(sched[j])
    decreases |sched| - k
  {
    if k == |sched| || !Retried(sched[k]) then k else Active(sched, k + 1)
  }

  lemma {:induction false} ActiveTail(sched: seq<Event>, k: nat)
    requires 0 < k <= |sched|
    ensures Active(sched, k) == 1 + Active(sched[1..], k - 1)
    decreases |sched| - k
  {
    if k < |sched| && Retried(sched[k]) { ActiveTail(sched, k + 1); }
  }

  /** The first event that gives up comes before `most` bytes are moved. */
  predicate Early(sched: seq<Event>, most: nat)
  {
    FirstStop(sched) < |sched| && Carried(sched, FirstStop(sched)) < most
  }

  /** The event that decides about an incomplete transfer: the first one that gives up, if it comes
      before the bytes that can be had are moved, and otherwise the first one after that which is
      not retried. */
  function Verdict(sched: seq<Event>, left: nat, avail: nat): (i: nat)
    ensures i <= |sched|
  {
    if Early(sched, Min(left, avail)) then FirstStop(sched) else Active(sched, Dry(sched, avail))
  }

  /** The end of the schedule, a call that moves nothing, or an error with number 0. */
  predicate Quiet(sched: seq<Event>, i: nat)
    requires i <= |sched|
  {
    i == |sched| || sched[i].Move? || sched[i].err == 0
  }

  lemma {:induction false} TransferMoves(sched: seq<Event>, left: nat, avail: nat)
    ensures var s, most := FirstStop(sched), Min(left, avail);
      Transfer(sched, left, avail).moved == if s < |sched| then Min(most, Carried(sched, s)) else most
    decreases |sched|
  {
    if left > 0 && sched != [] && !Stops(sched[0]) {
      var x := if sched[0].Move? then Min(sched[0].n, Min(left, avail)) else 0;
      CarriedTail(sched, FirstStop(sched));
      if x > 0 || sched[0].Fail? { TransferMoves(sched[1..], left - x, avail - x); }
    }
  }

  /** What an event returns when it decides about an incomplete transfer. */
  function Outcome(sched: seq<Event>, i: nat): int
    requires i <= |sched|
  {
    if Quiet(sched, i) then 0 else -(sched[i].err as int)
  }

  lemma {:induction false} TransferReturns(sched: seq<Event>, left: nat, avail: nat)
    ensures var r := Transfer(sched, left, avail);
      r.ret == if r.moved < left then Outcome(sched, Verdict(sched, left, avail)) else 0
    decreases |sched|
  {
    if left > 0 && sched != [] {
      var x := if sched[0].Move? then Min(sched[0].n, Min(left, avail)) else 0;
      if Stops(sched[0]) {
        StopReturns(sched, left, avail);
      } else if x > 0 || sched[0].Fail? {
        TransferReturns(sched[1..], left - x, avail - x);
        TailOutcome(sched, left, avail, x, left - x, avail - x);
      } else {
        NothingLeft(sched, left, avail);
      }
    }
  }

  lemma StopReturns(sched: seq<Event>, left: nat, avail: nat)
    requires left > 0 && sched != [] && Stops(sched[0])
    ensures Verdict(sched, left, avail) == 0 && Transfer(sched, left, avail).ret == Outcome(sched, 0)
    ensures Transfer(sched, left, avail).moved == 0
  {
    assert FirstStop(sched) == 0;
  }

  lemma TailReturns(sched: seq<Event>, left: nat, avail: nat, x: nat, left': nat, avail': nat)
    requires left > 0 && sched != [] && !Stops(sched[0]) && left == left' + x && avail == avail' + x
    requires x == (if sched[0].Move? then Min(sched[0].n, Min(left, avail)) else 0) && (x > 0 || sched[0].Fail?)
    ensures var r, r' := Transfer(sched, left, avail), Transfer(sched[1..], left', avail');
      r.ret == r'.ret && r.moved == x + r'.moved
  {
  }

  lemma OutcomeTail(sched: seq<Event>, i: nat, j: nat)
    requires j == i + 1 <= |sched|
    ensures Outcome(sched, j) == Outcome(sched[1..], i)
  {
  }

  lemma TailOutcome(sched: seq<Event>, left: nat, avail: nat, x: nat, left': nat, avail': nat)
    requires left > 0 && sched != [] && !Stops(sched[0]) && left == left' + x && avail == avail' + x
    requires x == (if sched[0].Move? then Min(sched[0].n, Min(left, avail)) else 0) && (x > 0 || sched[0].Fail?)
    requires var r := Transfer(sched[1..], left', avail');
      r.ret == if r.moved < left' then Outcome(sched[1..], Verdict(sched[1..], left', avail')) else 0
    ensures var r := Transfer(sched, left, avail);
      r.ret == if r.moved < left then Outcome(sched, Verdict(sched, left, avail)) else 0
  {
    TailReturns(sched, left, avail, x, left', avail');
    var r := Transfer(sched, left, avail);
    if r.moved < left {
      VerdictTail(sched, left, avail, x);
      assert x < left && left' == left - x && avail' == avail - x;
      OutcomeTail(sched, Verdict(sched[1..], left', avail'), Verdict(sched, left, avail));
    }
  }

  lemma NothingLeft(sched: seq<Event>, left: nat, avail: nat)
    requires left > 0 && avail == 0 && sched != [] && sched[0].Move?
    ensures Verdict(sched, left, avail) == 0
  {
  }

  /** How a transfer ends, read off the schedule and the bytes that can be had: it moves what fits
      before the first event that gives up. If that is not all, it reports success exactly when the
      event that decides is quiet, and the error of that event otherwise. */
  lemma TransferEnds(sched: seq<Event>, left: nat, avail: nat)
    ensures var r := Transfer(sched, left, avail);
      var s, most, v := FirstStop(sched), Min(left, avail), Verdict(sched, left, avail);
      && r.moved == (if s < |sched| then Min(most, Carried(sched, s)) else most)
      && (r.moved < left ==> (r.ret == 0 <==> Quiet(sched, v)))
      && (r.ret != 0 ==> r.moved < left && v < |sched| && sched[v].Fail? && r.ret == -(sched[v].err as int))
  {
    TransferMoves(sched, left, avail);
    TransferReturns(sched, left, avail);
  }

  lemma VerdictTail(sched: seq<Event>, left: nat, avail: nat, x: nat)
    requires left > 0 && sched != [] && !Stops(sched[0])
    requires x == (if sched[0].Move? then Min(sched[0].n, Min(left, avail)) else 0) && (x > 0 || sched[0].Fail?)
    ensures x < left || avail < left ==>
      Verdict(sched, left, avail) == 1 + Verdict(sched[1..], left - x, avail - x)
  {
    if x < left || avail < left {
      EarlyTail(sched, left, avail, x);
      DryTail(sched, left, avail, x);
    }
  }

  lemma EarlyTail(sched: seq<Event>, left: nat, avail: nat, x: nat)
    requires left > 0 && sched != [] && !Stops(sched[0])
    requires x == (if sched[0].Move? then Min(sched[0].n, Min(left, avail)) else 0)
    ensures FirstStop(sched) == 1 + FirstStop(sched[1..])
    ensures Early(sched, Min(left, avail)) <==> Early(sched[1..], Min(left - x, avail - x))
  {
    CarriedTail(sched, FirstStop(sched));
  }

  lemma DryTail(sched: seq<Event>, left: nat, avail: nat, x: nat)
    requires left > 0 && sched != [] && !Stops(sched[0]) && (x < left || avail < left)
    requires x == (if sched[0].Move? then Min(sched[0].n, Min(left, avail)) else 0) && (x > 0 || sched[0].Fail?)
    ensures Active(sched, Dry(sched, avail)) == 1 + Active(sched[1..], Dry(sched[1..], avail - x))
  {
    ActiveTail(sched, if avail > 0 then Dry(sched, avail) else 1);
  }

  /** On a steady stream a transfer is complete whenever the data is there. */
  lemma SteadyTransfer(sched: seq<Event>, left: nat, avail: nat)
    requires Steady(sched) && left <= avail
    ensures var r := Transfer(sched, left, avail); r.moved == left && r.ret == 0 && Steady(r.rest)
    decreases |sched|
  {
    if left > 0 && sched != [] {
      var x := if sched[0].Move? then Min(sched[0].n, left) else 0;
      SteadyTransfer(sched[1..], left - x, avail - x);
    }
  }

  /** The stream does not end early; the host may fail. */
  predicate Open(sched: seq<Event>)
  {
    forall i :: 0 <= i < |sched| ==> sched[i] != Move(0) && sched[i] != Fail(0)
  }

  /** On an open stream success means that everything was moved. */
  lemma OpenTransfer(sched: seq<Event>, left: nat, avail: nat)
    requires Open(sched) && left <= avail
    ensures var r := Transfer(sched, left, avail); (r.ret == 0 ==> r.moved == left) && Open(r.rest)
    decreases |sched|
  {
    if left > 0 && sched != [] {
      var x := if sched[0].Move? then Min(sched[0].n, left) else 0;
      OpenTransfer(sched[1..], left - x, avail - x);
    }
  }

  /** Of `msg` a part has been put behind `before`, and all of it if `ret` is 0. */
  predicate Sent(before: seq<Token>, wire: seq<Token>, msg: seq<Token>, ret: int)
  {
    before <= wire <= before + msg && (ret == 0 ==> wire == before + msg)
  }

  /** Two parts, the second of which is sent only after the first. */
  lemma SentBoth(before: seq<Token>, mid: seq<Token>, wire: seq<Token>, a: seq<Token>, b: seq<Token>, ret: int)
    requires mid == before + a && Sent(mid, wire, b, ret)
    ensures Sent(before, wire, a + b, ret)
  {
    assert before + (a + b) == mid + b;
  }

  lemma SentFirst(before: seq<Token>, wire: seq<Token>, a: seq<Token>, b: seq<Token>, ret: int)
    requires Sent(before, wire, a, ret) && ret != 0
    ensures Sent(before, wire, a + b, ret)
  {
    assert before + (a + b) == (before + a) + b;
  }

  /** What one call moves, without a retry. */
  function Single(sched: seq<Event>, size: nat, avail: nat): (n: nat)
    ensures n <= size && n <= avail
  {
    if sched == [] then Min(size, avail)
    else match sched[0]
      case Move(n) => Min(n, Min(size, avail))
      case Fail(_) => 0
  }

  // ---------------------------------------------------------------- reading while the peer writes

  /** A stream call, and how many bytes the peer has written by then. */
  datatype Call = Call(event: Event, written: nat)

  datatype Progress = Progress(moved: nat, ret: int)

  /** A transfer that runs while the peer still writes: a call gets only what is there, and `moved`
      bytes have been read before. */
  function TransferLive(calls: seq<Call>, left: nat, moved: nat): Progress
    decreases |calls|
  {
    if left == 0 then Progress(0, 0)
    else if calls == [] then Progress(left, 0)
    else match calls[0].event
      case Move(n) =>
        var x := Min(n, Min(left, Waiting(calls[0], moved)));
        if x == 0 then Progress(0, 0)
        else var r := TransferLive(calls[1..], left - x, moved + x); r.(moved := x + r.moved)
      case Fail(err) =>
        if Retried(calls[0].event) then TransferLive(calls[1..], left, moved) else Progress(0, 0 - err)
  }

  /** The bytes that wait to be read. */
  function Waiting(c: Call, moved: nat): nat
  {
    if c.written <= moved then 0 else c.written - moved
  }

  /** The schedule under which the same calls would move the same bytes once all are written. */
  function Events(calls: seq<Call>, left: nat, moved: nat): seq<Event>
    decreases |calls|
  {
    if calls == [] then []
    else match calls[0].event
      case Move(n) =>
        var x := Min(n, Waiting(calls[0], moved));
        [Move(x)] + Events(calls[1..], left - Min(x, left), moved + Min(x, left))
      case Fail(err) => [Fail(err)] + Events(calls[1..], left, moved)
  }

  /** Reading while the peer writes is reading all of it under another schedule. */
  lemma {:induction false} LiveIsScheduled(calls: seq<Call>, left: nat, avail: nat, moved: nat)
    requires left <= avail
    ensures var r := Transfer(Events(calls, left, moved), left, avail);
      TransferLive(calls, left, moved) == Progress(r.moved, r.ret)
    decreases |calls|
  {
    if left > 0 && calls != [] {
      if calls[0].event.Move? {
        var y := Min(Min(calls[0].event.n, Waiting(calls[0], moved)), left);
        if y > 0 { LiveIsScheduled(calls[1..], left - y, avail - y, moved + y); }
        LiveMove(calls, left, avail, moved, y);
      } else {
        LiveIsScheduled(calls[1..], left, avail, moved);
        assert Events(calls, left, moved)[1..] == Events(calls[1..], left, moved);
      }
    }
  }

  lemma LiveMove(calls: seq<Call>, left: nat, avail: nat, moved: nat, y: nat)
    requires 0 < left <= avail && calls != [] && calls[0].event.Move?
    requires y == Min(Min(calls[0].event.n, Waiting(calls[0], moved)), left)
    requires y > 0 ==>
      var r := Transfer(Events(calls[1..], left - y, moved + y), left - y, avail - y);
      TransferLive(calls[1..], left - y, moved + y) == Progress(r.moved, r.ret)
    ensures var r := Transfer(Events(calls, left, moved), left, avail);
      TransferLive(calls, left, moved) == Progress(r.moved, r.ret)
  {
    var evs := Events(calls, left, moved);
    assert evs[0] == Move(Min(calls[0].event.n, Waiting(calls[0], moved)));
    assert evs[1..] == Events(calls[1..], left - y, moved + y);
  }

  /** Each call that moves finds something to read, as a call does that waits for data. */
  ghost predicate Waits(calls: seq<Call>, left: nat, moved: nat)
    decreases |calls|
  {
    calls == [] || (
      && (calls[0].event.Move? ==> calls[0].written > moved)
      && var x := if calls[0].event.Move? then Min(Min(calls[0].event.n, Waiting(calls[0], moved)), left) else 0;
         Waits(calls[1..], left - x, moved + x))
  }

  /** Then the other schedule is as steady as the calls are, so the transfer is complete. */
  lemma {:induction false} LiveSteady(calls: seq<Call>, left: nat, avail: nat, moved: nat)
    requires left <= avail && Waits(calls, left, moved)
    requires forall i :: 0 <= i < |calls| ==> !Stops(calls[i].event)
    ensures Steady(Events(calls, left, moved))
    ensures TransferLive(calls, left, moved) == Progress(left, 0)
  {
    EventsSteady(calls, left, moved);
    LiveIsScheduled(calls, left, avail, moved);
    SteadyTransfer(Events(calls, left, moved), left, avail);
  }

  lemma {:induction false} EventsSteady(calls: seq<Call>, left: nat, moved: nat)
    requires Waits(calls, left, moved) && forall i :: 0 <= i < |calls| ==> !Stops(calls[i].event)
    ensures Steady(Events(calls, left, moved))
    decreases |calls|
  {
    if calls != [] {
      assert !Stops(calls[0].event);
      var x := if calls[0].event.Move? then Min(Min(calls[0].event.n, Waiting(calls[0], moved)), left) else 0;
      EventsSteady(calls[1..], left - x, moved + x);
    }
  }

  // ---------------------------------------------------------------- a stream that is cut

  /** A peer that closes after sending fewer bytes than asked for: the transfer reports success on
      every steady schedule. */
  lemma SteadyShort(sched: seq<Event>, left: nat, avail: nat)
    requires Steady(sched) && avail < left
    ensures var r := Transfer(sched, left, avail); r.moved == avail && r.ret == 0
  {
    TransferEnds(sched, left, avail);
    var v := Verdict(sched, left, avail);
    if v < |sched| { assert !Stops(sched[v]); }
  }

  /** A stream that ends at once: nothing is moved, and success is reported. */
  lemma SilentCut(left: nat, avail: nat)
    requires left > 0
    ensures Transfer([Move(0)], left, avail) == Result(0, 0, []) && Transfer([Fail(0)], left, avail) == Result(0, 0, [])
  {
  }

  // ---------------------------------------------------------------- what is on the wire

  function Tokens(b: seq<byte>): (t: seq<Token>)
    ensures |t| == |b|
  {
    seq(|b|, i requires 0 <= i < |b| => Data(b[i]))
  }

  lemma TokensSplit(b: seq<byte>, c: seq<byte>)
    ensures Tokens(b + c) == Tokens(b) + Tokens(c)
  {
  }

  lemma TokensEqual(b: seq<byte>, x: seq<Token>, c: seq<byte>, y: seq<Token>)
    requires Tokens(b) + x == Tokens(c) + y && |b| == |c|
    ensures b == c && x == y
  {
    assert Tokens(b) == (Tokens(b) + x)[..|b|] == Tokens(c);
    assert x == (Tokens(b) + x)[|b|..] == y;
    forall i | 0 <= i < |b| ensures b[i] == c[i] {
      assert Tokens(b)[i] == Data(b[i]) && Tokens(c)[i] == Data(c[i]);
    }
  }

  /** The bytes that can be read before a handle or the end. */
  function Readable(wire: seq<Token>): (n: nat)
    ensures n <= |wire| && forall i :: 0 <= i < n ==> wire[i].Data?
  {
    if wire == [] || wire[0].Cargo? then 0 else 1 + Readable(wire[1..])
  }

  lemma {:induction false} ReadableAtLeast(wire: seq<Token>, n: nat)
    requires n <= |wire| && forall i :: 0 <= i < n ==> wire[i].Data?
    ensures n <= Readable(wire)
    ensures Readable(wire[n..]) == Readable(wire) - n
  {
    if n > 0 {
      ReadableAtLeast(wire[1..], n - 1);
      assert wire[1..][n - 1..] == wire[n..];
    } else {
      assert wire[0..] == wire;
    }
  }

  function Values(t: seq<Token>): (b: seq<byte>)
    requires forall i :: 0 <= i < |t| ==> t[i].Data?
    ensures |b| == |t|
  {
    seq(|t|, i requires 0 <= i < |t| => t[i].b)
  }

  lemma Joined(b: seq<byte>, c: seq<byte>, wire: seq<Token>)
    ensures Tokens(b) + (Tokens(c) + wire) == Tokens(b + c) + wire
  {
    TokensSplit(b, c);
  }

  // ---------------------------------------------------------------- host calls

  /** The calls numbered from `a` up to `b` succeed. */
  ghost predicate Good(outcome: nat -> nat, a: nat, b: nat)
  {
    forall i :: a <= i < b ==> outcome(i) == 0
  }

  /** Of `due` host calls, numbered from `a`, those below `b` are made. If `ret` is 0 they are all made,
      and none fails; in any case none is made after one that failed. */
  ghost predicate Accounted(outcome: nat -> nat, a: nat, b: nat, due: nat, ret: int)
  {
    && a <= b <= a + due && (ret == 0 ==> b == a + due && Good(outcome, a, b))
    && (a < b ==> Good(outcome, a, b - 1))
  }

  /** The error of the last of these calls. */
  function Report(outcome: nat -> nat, a: nat, b: nat): int
  {
    if a < b then -(outcome(b - 1) as int) else 0
  }

  /** A part in which all goes well, and a part after it. */
  lemma AccountedNext(outcome: nat -> nat, a: nat, b: nat, c: nat, due: nat, due': nat, ret: int)
    requires Accounted(outcome, a, b, due, 0) && Accounted(outcome, b, c, due', ret)
    ensures Accounted(outcome, a, c, due + due', ret) && Report(outcome, a, c) == Report(outcome, b, c)
  {
  }

  /** A part that fails, and what would have come after it. */
  lemma AccountedFirst(outcome: nat -> nat, a: nat, b: nat, due: nat, total: nat, ret: int)
    requires Accounted(outcome, a, b, due, ret) && ret != 0 && due <= total
    ensures Accounted(outcome, a, b, total, ret)
  {
  }

  // ---------------------------------------------------------------- the host

  /** The host under one process: `sched` decides the stream calls, `wire` is the stream. Of all other
      host calls `made` have been made, and number `i` has the error number `outcome(i)`, where 0 is
      success. */
  class Host {
    const outcome: nat -> nat
    var sched: seq<Event>
    var made: nat
    var wire: seq<Token>

    constructor (sched: seq<Event>, outcome: nat -> nat, wire: seq<Token>)
      ensures this.sched == sched && this.outcome == outcome && made == 0 && this.wire == wire
    {
      this.sched, this.outcome, made, this.wire := sched, outcome, 0, wire;
    }

    /** The stream does not end early, and no host call fails. */
    ghost predicate Smooth()
      reads this`sched, this`made
    {
      Steady(sched) && forall i: nat :: made <= i ==> outcome(i) == 0
    }

    /** A host call other than reading and writing. */
    method Call() returns (err: nat)
      modifies this`made
      ensures made == old(made) + 1 && err == outcome(old(made))
    {
      err, made := outcome(made), made + 1;
    }

    /** `DkStreamWrite` and `DkStreamRead` when `left` bytes are asked for: nothing moved is the end
        of the stream, whose error number is 0. */
    method Next(left: nat, avail: nat) returns (failed: bool, x: nat, err: nat)
      requires left > 0
      modifies this`sched
      ensures !failed ==>
        && 0 < x <= left && x <= avail
        && Transfer(old(sched), left, avail) == Shifted(Transfer(sched, left - x, avail - x), x)
      ensures failed && (err == EINTR || err == EAGAIN) ==>
        |sched| < old(|sched|) && Transfer(old(sched), left, avail) == Transfer(sched, left, avail)
      ensures failed && err != EINTR && err != EAGAIN ==>
        Transfer(old(sched), left, avail) == Result(0, -(err as int), sched)
    {
      failed, x, err := false, Min(left, avail), 0;
      if sched != [] {
        match sched[0] {
          case Move(n) => x := Min(n, x);
          case Fail(e) => failed, x, err := true, 0, e;
        }
        sched := sched[1..];
      }
      failed := failed || x == 0;
    }

    /** `write_exact`. */
    method WriteExact(buf: seq<byte>) returns (ret: int, ghost moved: nat)
      modifies this`sched, this`wire
      ensures Result(moved, ret, sched) == Transfer(old(sched), |buf|, |buf|) && moved <= |buf|
      ensures wire == old(wire) + Tokens(buf[..moved])
    {
      var bytes, left := 0, |buf|;
      ghost var whole := Transfer(sched, left, left);
      while bytes < |buf|
        invariant 0 <= left <= |buf| && bytes + left == |buf| && wire == old(wire) + Tokens(buf[..bytes])
        invariant Shifted(Transfer(sched, left, left), bytes) == whole
        decreases left, |sched|
      {
        var failed, x, err := Next(left, left);
        if failed {
          if err == EINTR || err == EAGAIN {
            continue;
          }
          return -(err as int), bytes;
        }
        TokensSplit(buf[..bytes], buf[bytes..bytes + x]);
        assert buf[..bytes] + buf[bytes..bytes + x] == buf[..bytes + x];
        wire := wire + Tokens(buf[bytes..bytes + x]);
        bytes, left := bytes + x, left - x;
      }
      return 0, bytes;
    }

    /** The next `x` bytes off the stream. */
    method TakeBytes(x: nat) returns (data: seq<byte>)
      requires x <= Readable(wire)
      modifies this`wire
      ensures |data| == x && old(wire) == Tokens(data) + wire && Readable(wire) == Readable(old(wire)) - x
    {
      data := Values(wire[..x]);
      ReadableAtLeast(wire, x);
      assert wire == Tokens(data) + wire[x..];
      wire := wire[x..];
    }

    /** `read_exact`: `got` is what was put into the buffer. */
    method ReadExact(size: nat) returns (ret: int, got: seq<byte>)
      modifies this`sched, this`wire
      ensures Result(|got|, ret, sched) == Transfer(old(sched), size, Readable(old(wire)))
      ensures old(wire) == Tokens(got) + wire
    {
      got := [];
      var avail, left := Readable(wire), size;
      ghost var whole := Transfer(sched, size, avail);
      while |got| < size
        invariant left == size - |got| && old(wire) == Tokens(got) + wire
        invariant avail == Readable(wire) && Shifted(Transfer(sched, left, avail), |got|) == whole
        decreases left, |sched|
      {
        var failed, x, err := Next(left, avail);
        if failed {
          if err == EINTR || err == EAGAIN {
            continue;
          }
          return -(err as int), got;
        }
        var data := TakeBytes(x);
        Joined(got, data, wire);
        got, avail, left := got + data, avail - x, left - x;
      }
      return 0, got;
    }

    /** Writing a buffer, in the terms of the caller. */
    method WriteAll(buf: seq<byte>) returns (ret: int, ghost moved: nat)
      modifies this`sched, this`wire
      ensures moved <= |buf| && wire == old(wire) + Tokens(buf[..moved])
      ensures ret <= 0 && (old(Steady(sched)) ==> ret == 0 && Steady(sched))
      ensures old(Open(sched)) ==> Open(sched) && Sent(old(wire), wire, Tokens(buf), ret)
    {
      if Steady(sched) { SteadyTransfer(sched, |buf|, |buf|); }
      if Open(sched) { OpenTransfer(sched, |buf|, |buf|); }
      ret, moved := WriteExact(buf);
      TokensSplit(buf[..moved], buf[moved..]);
      assert buf[..moved] + buf[moved..] == buf;
      assert old(wire) + (Tokens(buf[..moved]) + Tokens(buf[moved..])) == wire + Tokens(buf[moved..]);
    }

    /** Reading `b`, which is next on the stream. */
    method ReadAll(size: nat, ghost b: seq<byte>, ghost rest: seq<Token>) returns (ret: int, got: seq<byte>)
      modifies this`sched, this`wire
      ensures ret <= 0 && |got| <= size
      ensures old(Steady(sched) && |b| == size && wire == Tokens(b) + rest) ==> ret == 0 && Steady(sched)
      ensures old(Open(sched) && |b| == size && wire == Tokens(b) + rest) ==>
        Open(sched) && (ret == 0 ==> got == b && wire == rest)
    {
      ghost var whole := Open(sched) && |b| == size && wire == Tokens(b) + rest;
      if whole {
        ReadableAtLeast(wire, size);
        if Steady(sched) { SteadyTransfer(sched, size, Readable(wire)); }
        OpenTransfer(sched, size, Readable(wire));
      }
      ret, got := ReadExact(size);
      if whole && ret == 0 { TokensEqual(got, wire, b, rest); }
    }

    /** A single `DkStreamRead`. */
    method ReadOnce(size: nat) returns (got: seq<byte>)
      modifies this`sched, this`wire
      ensures |got| == Single(old(sched), size, Readable(old(wire))) && old(wire) == Tokens(got) + wire
      ensures sched == if old(sched) == [] then [] else old(sched)[1..]
    {
      var n := Single(sched, size, Readable(wire));
      if sched != [] {
        sched := sched[1..];
      }
      got := TakeBytes(n);
    }

    /** A single `DkStreamWrite`: how much of `buf` is written. */
    method WriteOnce(buf: seq<byte>) returns (n: nat)
      modifies this`sched, this`wire
      ensures n == Single(old(sched), |buf|, |buf|) && wire == old(wire) + Tokens(buf[..n])
      ensures sched == if old(sched) == [] then [] else old(sched)[1..]
    {
      n := Single(sched, |buf|, |buf|);
      if sched != [] {
        sched := sched[1..];
      }
      wire := wire + Tokens(buf[..n]);
    }

    /** `DkSendHandle`, which refuses a null handle. */
    method SendHandle(h: u64) returns (ok: bool)
      modifies this`made, this`wire
      ensures ok <==> h != 0 && outcome(old(made)) == 0
      ensures made == old(made) + if h == 0 then 0 else 1
      ensures wire == old(wire) + if ok then [Cargo(h)] else []
    {
      if h == 0 {
        return false;
      }
      var err := Call();
      ok := err == 0;
      if ok {
        wire := wire + [Cargo(h)];
      }
    }

    /** `DkReceiveHandle`: 0 when there is no handle to be had. */
    method ReceiveHandle() returns (h: u64)
      modifies this`made, this`wire
      ensures made == old(made) + 1
      ensures h == if outcome(old(made)) == 0 && old(wire) != [] && old(wire)[0].Cargo? then old(wire)[0].handle else 0
      ensures old(wire) == (if h != 0 then [Cargo(h)] else []) + wire
    {
      var err := Call();
      if err != 0 || wire == [] || !wire[0].Cargo? || wire[0].handle == 0 {
        return 0;
      }
      h, wire := wire[0].handle, wire[1..];
    }
  }

  function Shifted(r: Result, n: nat): Result
  {
    r.(moved := r.moved + n)
  }
}
