/** What the client's read loop makes of bytes that arrive in chunks, with its limit on waiting
    (src/bin/client/model/tcp_client.cpp, `onReadyRead`). */
module Arrival {
  import opened Bytes
  import opened Stream
  import opened Wire

  const MAX_RETRIES := 100

  /** `socket` is what has arrived; `pending` is what each further readiness signal, or each sleep of a
      retry, will deliver, in order. An empty chunk is a sleep in which nothing arrives. */
  datatype Link = Link(socket: Text, pending: seq<Text>) {
    /** All bytes that have not been consumed. */
    function Ahead(): Text {
      socket + Flatten(pending)
    }

    function Arrive(): Link {
      if pending == [] then this else Link(socket + pending[0], pending[1..])
    }
  }

  /** A wait for `n` bytes, with at most `retries` sleeps. */
  function Wait(l: Link, n: nat, retries: nat): (r: Link)
    ensures |r.pending| <= |l.pending|
    decreases retries
  {
    if |l.socket| >= n || retries == 0 then l else Wait(l.Arrive(), n, retries - 1)
  }

  /** How a round of the loop ends. In the last two cases it has consumed a header and no payload. */
  datatype Step = Whole(frame: Frame) | NeedHeader | VersionMismatch | TimedOut

  /** What follows a header. */
  function AfterHeader(h: HeaderVal, rest: Link): (r: (Step, Link))
    ensures |r.1.pending| <= |rest.pending|
    ensures r.0 != NeedHeader && HEADER_SIZE + |rest.Ahead()| == Consumed(r.0) + |r.1.Ahead()|
  {
    if h.version != PROTOCOL_VERSION then (VersionMismatch, rest)
    else
      var n := h.packetLength;
      var w := Wait(rest, n, MAX_RETRIES);
      WaitKeeps(rest, n, MAX_RETRIES);
      if |w.socket| < n then (TimedOut, w)
      else (Whole(Frame(h.operation, w.socket[..n])), Link(w.socket[n..], w.pending))
  }

  function Round(l: Link): (r: (Step, Link))
    ensures |r.1.pending| <= |l.pending|
    ensures |l.Ahead()| == Consumed(r.0) + |r.1.Ahead()|
  {
    if |l.socket| < HEADER_SIZE then (NeedHeader, l)
    else AfterHeader(DecodeHeader(l.socket), Link(l.socket[HEADER_SIZE..], l.pending))
  }

  function Consumed(s: Step): nat {
    match s
    case Whole(f) => |EncodeFrame(f)|
    case NeedHeader => 0
    case _ => HEADER_SIZE
  }

  /** One readiness signal: rounds until one does not end in a frame. The log has an entry for each
      header consumed: its frame, or `None` if it was dropped. */
  function Ready(l: Link): (r: (seq<Option<Frame>>, Link))
    ensures |r.1.pending| <= |l.pending|
    decreases |l.Ahead()|
  {
    var (step, l') := Round(l);
    match step
    case Whole(f) => var (log, m) := Ready(l'); ([Some(f)] + log, m)
    case NeedHeader => ([], l')
    case _ => ([None], l')
  }

  /** Everything that arrives, one readiness signal per chunk not already taken by a sleep. After a
      dropped header the loop goes on with the next signal, in the middle of the payload. */
  function Intake(l: Link): (r: (seq<Option<Frame>>, Link))
    ensures r.1.pending == []
    decreases |l.pending|
  {
    if l.pending == [] then ([], l)
    else
      var (log, m) := Ready(l.Arrive());
      var (more, r) := Intake(m);
      (log + more, r)
  }

  /** The frames of a log, in order. */
  function Frames(log: seq<Option<Frame>>): seq<Frame> {
    if log == [] then []
    else (if log[0].Some? then [log[0].value] else []) + Frames(log[1..])
  }

  /** The frames before the first dropped header. */
  function Clean(log: seq<Option<Frame>>): seq<Frame> {
    if log == [] || log[0].None? then [] else [log[0].value] + Clean(log[1..])
  }

  function AllWhole(fs: seq<Frame>): (log: seq<Option<Frame>>)
    ensures |log| == |fs| && forall i :: 0 <= i < |fs| ==> log[i] == Some(fs[i])
  {
    seq(|fs|, i requires 0 <= i < |fs| => Some(fs[i]))
  }

  /* Waiting */

  lemma {:induction false} ArriveKeeps(l: Link)
    ensures l.Arrive().Ahead() == l.Ahead()
  {
    if l.pending != [] {
      AppendTwice(l.socket, l.pending[0], Flatten(l.pending[1..]));
    }
  }

  lemma {:induction false} WaitKeeps(l: Link, n: nat, retries: nat)
    ensures Wait(l, n, retries).Ahead() == l.Ahead()
    decreases retries
  {
    if |l.socket| < n && retries > 0 {
      ArriveKeeps(l);
      WaitKeeps(l.Arrive(), n, retries - 1);
    }
  }

  /** What the first `k` chunks hold. */
  function Total(pending: seq<Text>, k: nat): nat
    requires k <= |pending|
  {
    |Flatten(pending[..k])|
  }

  lemma {:induction false} TotalStep(pending: seq<Text>, k: nat)
    requires k < |pending|
    ensures Total(pending, k + 1) == |pending[0]| + Total(pending[1..], k)
  {
    assert pending[..k + 1][1..] == pending[1..][..k];
  }

  /** A wait succeeds exactly when what has arrived and the next chunks, at most one a sleep, hold
      enough. */
  lemma {:induction false} WaitReaches(l: Link, n: nat, retries: nat)
    ensures var k := if retries <= |l.pending| then retries else |l.pending|;
      |Wait(l, n, retries).socket| >= n <==> |l.socket| + Total(l.pending, k) >= n
    decreases retries
  {
    if |l.socket| < n && retries > 0 {
      WaitReaches(l.Arrive(), n, retries - 1);
      if l.pending != [] {
        TotalStep(l.pending, (if retries <= |l.pending| then retries else |l.pending|) - 1);
      }
    }
  }

  /** How many more chunks it takes until `n` bytes have arrived, counting the `have` that are there. */
  function Needed(have: nat, pending: seq<Text>, n: nat): (k: nat)
    ensures k <= |pending|
    decreases |pending|
  {
    if have >= n || pending == [] then 0 else 1 + Needed(have + |pending[0]|, pending[1..], n)
  }

  /** That is the least number of chunks that hold enough, if all of them do. */
  lemma {:induction false} NeededLeast(have: nat, pending: seq<Text>, n: nat, j: nat)
    requires j <= |pending| && n <= have + |Flatten(pending)|
    ensures n <= have + Total(pending, Needed(have, pending, n))
    ensures n <= have + Total(pending, j) <==> Needed(have, pending, n) <= j
    decreases |pending|
  {
    if have < n && pending != [] {
      var k := Needed(have, pending, n) - 1;
      NeededLeast(have + |pending[0]|, pending[1..], n, if j > 0 then j - 1 else 0);
      TotalStep(pending, k);
      if j > 0 {
        TotalStep(pending, j - 1);
      }
    }
  }

  lemma {:induction false} NeededShift(have: nat, pending: seq<Text>, n: nat, e: nat)
    requires e <= have && e <= n
    ensures Needed(have - e, pending, n - e) == Needed(have, pending, n)
    decreases |pending|
  {
    if have < n && pending != [] {
      NeededShift(have + |pending[0]|, pending[1..], n, e);
    }
  }

  /** Once the chunks needed for `m` bytes have arrived, so many fewer are needed for more. */
  lemma {:induction false} NeededAfter(have: nat, pending: seq<Text>, m: nat, n: nat)
    requires m <= n
    ensures var k := Needed(have, pending, m);
      Needed(have + Total(pending, k), pending[k..], n) == Needed(have, pending, n) - k
    decreases |pending|
  {
    if have < m && pending != [] {
      var k := Needed(have, pending, m) - 1;
      NeededAfter(have + |pending[0]|, pending[1..], m, n);
      TotalStep(pending, k);
      assert pending[1..][k..] == pending[k + 1..];
    } else {
      assert pending[0..] == pending;
    }
  }

  lemma {:induction false} WaitStops(l: Link, n: nat, retries: nat)
    requires n <= |l.Ahead()|
    ensures var k, w := Needed(|l.socket|, l.pending, n), Wait(l, n, retries);
      && (|w.socket| >= n <==> k <= retries)
      && (k <= retries ==> w.pending == l.pending[k..] && |w.socket| == |l.socket| + Total(l.pending, k))
    decreases retries
  {
    if |l.socket| < n && l.pending != [] {
      var k := Needed(|l.socket|, l.pending, n) - 1;
      TotalStep(l.pending, k);
      if retries > 0 {
        ArriveKeeps(l);
        WaitStops(l.Arrive(), n, retries - 1);
        assert l.pending[1..][k..] == l.pending[k + 1..];
      }
    } else {
      assert l.pending[0..] == l.pending;
    }
  }

  /* When every payload arrives in time */

  /** Where the first `i` frames end in the stream. */
  function End(fs: seq<Frame>, i: nat): nat
    requires i <= |fs|
  {
    |EncodeFrames(fs[..i])|
  }

  predicate PayloadInTime(have: nat, pending: seq<Text>, fs: seq<Frame>, i: nat)
    requires i < |fs|
  {
    Needed(have, pending, End(fs, i + 1)) <= Needed(have, pending, End(fs, i) + HEADER_SIZE) + 100
  }

  predicate Timely(have: nat, pending: seq<Text>, fs: seq<Frame>) {
    forall i :: 0 <= i < |fs| ==> PayloadInTime(have, pending, fs, i)
  }

  /** Between the chunk that completes a header and the one that completes its payload there are never
      more than a hundred. */
  predicate InTime(chunks: seq<Text>, fs: seq<Frame>) {
    Timely(0, chunks, fs)
  }

  lemma {:induction false} EndStep(fs: seq<Frame>, i: nat)
    requires i < |fs|
    ensures End(fs, i + 1) == |EncodeFrame(fs[0])| + End(fs[1..], i)
  {
    assert fs[..i + 1][1..] == fs[1..][..i];
  }

  lemma {:induction false} PayloadShift(have: nat, pending: seq<Text>, fs: seq<Frame>, i: nat)
    requires 0 < i < |fs|
    ensures var e := |EncodeFrame(fs[0])|;
      var k := Needed(have, pending, e);
      && e <= have + Total(pending, k) ==>
         (PayloadInTime(have, pending, fs, i)
          <==> PayloadInTime(have + Total(pending, k) - e, pending[k..], fs[1..], i - 1))
  {
    var e := |EncodeFrame(fs[0])|;
    var k := Needed(have, pending, e);
    var there := have + Total(pending, k);
    EndStep(fs, i);
    EndStep(fs, i - 1);
    var a, b := End(fs, i) + HEADER_SIZE, End(fs, i + 1);
    NeededAfter(have, pending, e, a);
    NeededAfter(have, pending, e, b);
    if e <= there {
      NeededShift(there, pending[k..], a, e);
      NeededShift(there, pending[k..], b, e);
    }
  }

  /** The first payload in time, and the rest in time from there. */
  lemma {:induction false} TimelyStep(have: nat, pending: seq<Text>, fs: seq<Frame>)
    requires fs != [] && |EncodeFrame(fs[0])| <= have + |Flatten(pending)| && have >= HEADER_SIZE
    ensures var e := |EncodeFrame(fs[0])|;
      var k := Needed(have, pending, e);
      && e <= have + Total(pending, k)
      && (Timely(have, pending, fs) <==>
          k <= MAX_RETRIES && Timely(have + Total(pending, k) - e, pending[k..], fs[1..]))
  {
    var e := |EncodeFrame(fs[0])|;
    var k := Needed(have, pending, e);
    NeededLeast(have, pending, e, 0);
    var after, more := have + Total(pending, k) - e, pending[k..];
    EndStep(fs, 0);
    assert PayloadInTime(have, pending, fs, 0) <==> k <= MAX_RETRIES;
    forall i | 0 < i < |fs|
      ensures PayloadInTime(have, pending, fs, i) <==> PayloadInTime(after, more, fs[1..], i - 1)
    {
      PayloadShift(have, pending, fs, i);
    }
    if Timely(have, pending, fs) {
      forall i | 0 <= i < |fs[1..]| ensures PayloadInTime(after, more, fs[1..], i) {
        assert PayloadInTime(have, pending, fs, i + 1);
      }
    }
  }

  /** A chunk that is needed for the next header brings everything one chunk nearer. */
  lemma {:induction false} TimelyArrive(have: nat, pending: seq<Text>, fs: seq<Frame>)
    requires have < HEADER_SIZE && pending != []
    ensures Timely(have, pending, fs) <==> Timely(have + |pending[0]|, pending[1..], fs)
  {
    var more, rest := have + |pending[0]|, pending[1..];
    forall i | 0 <= i < |fs| ensures PayloadInTime(have, pending, fs, i) <==> PayloadInTime(more, rest, fs, i) {
      assert fs[..i + 1] == fs[..i] + [fs[i]];
      EncodeFramesConcat(fs[..i], [fs[i]]);
      OneFrame(fs[i]);
    }
    if Timely(more, rest, fs) {
      forall i | 0 <= i < |fs| ensures PayloadInTime(have, pending, fs, i) {
        assert PayloadInTime(more, rest, fs, i);
      }
    }
  }

  lemma {:induction false} OneFrame(f: Frame)
    ensures EncodeFrames([f]) == EncodeFrame(f)
  {
    assert [f][1..] == [];
  }

  /* What the loop dispatches */

  /** An encoded stream of which a header has arrived begins with a frame, and what follows the header
      is its payload. */
  lemma {:induction false} HeaderArrived(l: Link, fs: seq<Frame>)
    requires |l.socket| >= HEADER_SIZE && FramesFit(fs) && l.Ahead() == EncodeFrames(fs)
    ensures fs != [] && |l.Ahead()| == HEADER_SIZE + |fs[0].payload| + |EncodeFrames(fs[1..])|
    ensures DecodeHeader(l.socket) == HeaderVal(PROTOCOL_VERSION, fs[0].operation, |fs[0].payload|)
    ensures Link(l.socket[HEADER_SIZE..], l.pending).Ahead() == fs[0].payload + EncodeFrames(fs[1..])
  {
    var f, tail := fs[0], EncodeFrames(fs[1..]);
    FrameHeader(f, tail);
    assert l.socket[..HEADER_SIZE] == l.Ahead()[..HEADER_SIZE];
    assert DecodeHeader(l.socket) == DecodeHeader(EncodeFrame(f) + tail);
    assert (EncodeFrame(f) + tail)[HEADER_SIZE..] == f.payload + tail;
    assert Link(l.socket[HEADER_SIZE..], l.pending).Ahead() == l.Ahead()[HEADER_SIZE..];
  }

  /** Cutting a payload off what has arrived. */
  lemma {:induction false} CutPayload(w: Link, payload: Text, tail: Text)
    requires w.Ahead() == payload + tail && |w.socket| >= |payload|
    ensures w.socket[..|payload|] == payload
    ensures Link(w.socket[|payload|..], w.pending).Ahead() == tail
  {
    var n := |payload|;
    assert w.socket[..n] == w.Ahead()[..n];
    assert w.socket[n..] + Flatten(w.pending) == w.Ahead()[n..];
  }

  /** The wait for a payload that begins the stream. */
  lemma {:induction false} PayloadArrives(rest: Link, operation: byte, payload: Text, tail: Text)
    requires |payload| <= 0xFFFF && rest.Ahead() == payload + tail
    ensures var k, (step, m) := Needed(|rest.socket|, rest.pending, |payload|),
                                AfterHeader(HeaderVal(PROTOCOL_VERSION, operation, |payload|), rest);
      if k <= MAX_RETRIES then
        && step == Whole(Frame(operation, payload)) && m.Ahead() == tail
        && m.pending == rest.pending[k..] && |m.socket| == |rest.socket| + Total(rest.pending, k) - |payload|
      else step == TimedOut
  {
    var n := |payload|;
    WaitKeeps(rest, n, MAX_RETRIES);
    WaitStops(rest, n, MAX_RETRIES);
    if |Wait(rest, n, MAX_RETRIES).socket| >= n {
      CutPayload(Wait(rest, n, MAX_RETRIES), payload, tail);
    }
  }

  /** What a round does on an encoded stream: the first frame, if its payload comes in time; otherwise
      its header is dropped. */
  lemma {:induction false} RoundOnFrames(l: Link, fs: seq<Frame>)
    requires |l.socket| >= HEADER_SIZE && FramesFit(fs) && l.Ahead() == EncodeFrames(fs)
    ensures fs != [] && |EncodeFrame(fs[0])| <= |l.Ahead()|
    ensures var e := |EncodeFrame(fs[0])|;
      var k, (step, m) := Needed(|l.socket|, l.pending, e), Round(l);
      if k <= MAX_RETRIES then
        && step == Whole(fs[0]) && m.Ahead() == EncodeFrames(fs[1..])
        && m.pending == l.pending[k..] && |m.socket| == |l.socket| + Total(l.pending, k) - e
      else step == TimedOut
  {
    HeaderArrived(l, fs);
    var f, tail, rest := fs[0], EncodeFrames(fs[1..]), Link(l.socket[HEADER_SIZE..], l.pending);
    var h := HeaderVal(PROTOCOL_VERSION, f.operation, |f.payload|);
    assert Round(l) == AfterHeader(h, rest);
    NeededShift(|l.socket|, l.pending, |f.payload| + HEADER_SIZE, HEADER_SIZE);
    assert Needed(|rest.socket|, rest.pending, |f.payload|) == Needed(|l.socket|, l.pending, |EncodeFrame(f)|);
    PayloadArrives(rest, f.operation, f.payload, tail);
  }

  /** How far a readiness signal gets on the frames `fs`, of which all payloads come in time or not:
      through some whole frames, after which the same is true of the rest; or a header is dropped. */
  predicate Advanced(fs: seq<Frame>, timely: bool, r: (seq<Option<Frame>>, Link)) {
    var (log, m) := r;
    if None in log then !timely
    else
      && |log| <= |fs| && log == AllWhole(fs[..|log|])
      && m.Ahead() == EncodeFrames(fs[|log|..]) && |m.socket| < HEADER_SIZE
      && timely == Timely(|m.socket|, m.pending, fs[|log|..])
  }

  lemma {:induction false} AdvancedStep(fs: seq<Frame>, timely: bool, log: seq<Option<Frame>>, m: Link)
    requires fs != [] && Advanced(fs[1..], timely, (log, m))
    ensures Advanced(fs, timely, ([Some(fs[0])] + log, m))
  {
    DroppedLater(Some(fs[0]), log);
    if None !in log {
      WholeCons(fs, |log|);
      assert fs[|log| + 1..] == fs[1..][|log|..];
    }
  }

  lemma {:induction false} DroppedLater(x: Option<Frame>, log: seq<Option<Frame>>)
    requires x.Some?
    ensures None in [x] + log <==> None in log
  {
    var longer := [x] + log;
    assert longer[0] == x && longer[1..] == log;
    assert None in longer ==> exists i :: 0 < i < |longer| && longer[i] == None;
  }

  lemma {:induction false} WholeCons(fs: seq<Frame>, n: nat)
    requires n < |fs|
    ensures AllWhole(fs[..n + 1]) == [Some(fs[0])] + AllWhole(fs[1..][..n])
  {
    assert fs[..n + 1] == [fs[0]] + fs[1..][..n];
  }

  lemma {:induction false} RoundAdvances(l: Link, fs: seq<Frame>, timely: bool)
    requires |l.socket| >= HEADER_SIZE && FramesFit(fs) && l.Ahead() == EncodeFrames(fs)
    requires timely == Timely(|l.socket|, l.pending, fs)
    ensures var (step, m) := Round(l);
      if step.Whole? then
        && fs != [] && step.frame == fs[0] && m.Ahead() == EncodeFrames(fs[1..])
        && timely == Timely(|m.socket|, m.pending, fs[1..])
      else step == TimedOut && !timely
  {
    RoundOnFrames(l, fs);
    TimelyStep(|l.socket|, l.pending, fs);
  }

  lemma {:induction false} ReadyOnFrames(l: Link, fs: seq<Frame>, timely: bool)
    requires FramesFit(fs) && l.Ahead() == EncodeFrames(fs)
    requires timely == Timely(|l.socket|, l.pending, fs)
    ensures Advanced(fs, timely, Ready(l))
    decreases |l.Ahead()|
  {
    if |l.socket| < HEADER_SIZE {
      assert fs[0..] == fs;
    } else {
      RoundAdvances(l, fs, timely);
      var (step, l') := Round(l);
      if step.Whole? {
        ReadyOnFrames(l', fs[1..], timely);
        AdvancedStep(fs, timely, Ready(l').0, Ready(l').1);
      } else {
        assert Ready(l).0[0] == None;
      }
    }
  }

  lemma {:induction false} WholeConcat(fs: seq<Frame>, n: nat)
    requires n <= |fs|
    ensures AllWhole(fs[..n]) + AllWhole(fs[n..]) == AllWhole(fs)
  {
  }

  lemma {:induction false} NoFrames(fs: seq<Frame>)
    requires |EncodeFrames(fs)| < HEADER_SIZE
    ensures fs == [] && EncodeFrames(fs) == []
  {
  }

  lemma {:induction false} IntakeOnFrames(l: Link, fs: seq<Frame>)
    requires FramesFit(fs) && l.Ahead() == EncodeFrames(fs) && |l.socket| < HEADER_SIZE
    ensures var (log, m) := Intake(l);
      if Timely(|l.socket|, l.pending, fs) then log == AllWhole(fs) && m.socket == [] else None in log
    decreases |l.pending|
  {
    if l.pending == [] {
      assert l.Ahead() == l.socket;
      NoFrames(fs);
    } else {
      ArriveKeeps(l);
      TimelyArrive(|l.socket|, l.pending, fs);
      ReadyOnFrames(l.Arrive(), fs, Timely(|l.socket|, l.pending, fs));
      var (log, m) := Ready(l.Arrive());
      if None !in log {
        IntakeOnFrames(m, fs[|log|..]);
        WholeConcat(fs, |log|);
      }
    }
  }

  /** The log of a signal, one round at a time. */
  lemma {:induction false} ReadyStep(done: seq<Option<Frame>>, l: Link)
    ensures var (step, l') := Round(l);
      var (log, m) := Ready(l);
      if step.Whole? then
        && (done + log, m) == (done + [Some(step.frame)] + Ready(l').0, Ready(l').1)
        && Frames(log) == [step.frame] + Frames(Ready(l').0)
        && Frames(done + [Some(step.frame)]) == Frames(done) + [step.frame]
      else
        && (done + log, m) == (if step == NeedHeader then done else done + [None], l')
        && Frames(log) == [] && Frames(done + log) == Frames(done)
  {
    var (step, l') := Round(l);
    var (log, m) := Ready(l);
    LogConcat(done, log);
    if step.Whole? {
      var one: seq<Option<Frame>>, more := [Some(step.frame)], Ready(l').0;
      assert log == one + more && log[1..] == more;
      assert done + (one + more) == done + one + more;
      assert one[1..] == [] && Frames(one) == [step.frame];
      LogConcat(done, one);
    } else if step != NeedHeader {
      assert log[1..] == [];
    } else {
      assert done + [] == done;
    }
  }

  /* Accounting for every byte */

  /** The bytes a log stands for. */
  function Size(log: seq<Option<Frame>>): nat {
    if log == [] then 0
    else (if log[0].Some? then |EncodeFrame(log[0].value)| else HEADER_SIZE) + Size(log[1..])
  }

  lemma {:induction false} SizeConcat(a: seq<Option<Frame>>, b: seq<Option<Frame>>)
    ensures Size(a + b) == Size(a) + Size(b)
    decreases |a|
  {
    if a == [] {
      assert a + b == b;
    } else {
      assert (a + b)[1..] == a[1..] + b;
      SizeConcat(a[1..], b);
    }
  }

  lemma {:induction false} LogConcat(a: seq<Option<Frame>>, b: seq<Option<Frame>>)
    ensures Frames(a + b) == Frames(a) + Frames(b)
    decreases |a|
  {
    if a == [] {
      assert a + b == b;
    } else {
      assert (a + b)[1..] == a[1..] + b && (a + b)[0] == a[0];
      LogConcat(a[1..], b);
      var head := if a[0].Some? then [a[0].value] else [];
      assert head + (Frames(a[1..]) + Frames(b)) == head + Frames(a[1..]) + Frames(b);
    }
  }

  lemma {:induction false} ReadyAccounts(l: Link)
    ensures |l.Ahead()| == Size(Ready(l).0) + |Ready(l).1.Ahead()|
    decreases |l.Ahead()|
  {
    var (step, l') := Round(l);
    if step.Whole? {
      ReadyAccounts(l');
      var (more, _) := Ready(l');
      assert ([Some(step.frame)] + more)[1..] == more;
    } else if step != NeedHeader {
      assert Ready(l).0[1..] == [];
    }
  }

  /** Whatever arrives, every byte is in a dispatched frame, in a dropped header, or still there. */
  lemma {:induction false} IntakeAccounts(l: Link)
    ensures |l.Ahead()| == Size(Intake(l).0) + |Intake(l).1.socket|
    decreases |l.pending|
  {
    if l.pending == [] {
      assert l.Ahead() == l.socket;
    } else {
      ArriveKeeps(l);
      ReadyAccounts(l.Arrive());
      var (log, m) := Ready(l.Arrive());
      IntakeAccounts(m);
      SizeConcat(log, Intake(m).0);
    }
  }

  /** Dropped headers weigh too. */
  lemma {:induction false} SizeOfFrames(log: seq<Option<Frame>>)
    ensures Size(log) >= |EncodeFrames(Frames(log))|
    ensures None in log ==> Size(log) > |EncodeFrames(Frames(log))|
    decreases |log|
  {
    if log != [] {
      SizeOfFrames(log[1..]);
      if log[0].Some? {
        assert Frames(log)[1..] == Frames(log[1..]);
      } else {
        assert Frames(log) == Frames(log[1..]);
      }
      assert log == [log[0]] + log[1..];
    }
  }

  lemma {:induction false} FramesOfWhole(fs: seq<Frame>)
    ensures Frames(AllWhole(fs)) == fs && None !in AllWhole(fs)
    decreases |fs|
  {
    if fs != [] {
      assert AllWhole(fs)[1..] == AllWhole(fs[1..]);
      FramesOfWhole(fs[1..]);
    }
  }

  /** The client dispatches exactly the frames that were sent if and only if every payload arrives in
      time; and then no header is dropped and no byte is left. */
  lemma {:induction false} DeliveredExactly(chunks: seq<Text>, fs: seq<Frame>)
    requires FramesFit(fs) && Flatten(chunks) == EncodeFrames(fs)
    ensures var (log, m) := Intake(Link([], chunks));
      && (Frames(log) == fs <==> InTime(chunks, fs))
      && (InTime(chunks, fs) <==> None !in log)
      && (InTime(chunks, fs) ==> m.socket == [])
  {
    var l := Link([], chunks);
    assert l.Ahead() == Flatten(chunks);
    IntakeOnFrames(l, fs);
    IntakeAccounts(l);
    SizeOfFrames(Intake(l).0);
    FramesOfWhole(fs);
  }

  /* Any stream */

  /** On a stream with these whole frames at its front, the ones before the first dropped header come
      first, in order; without a dropped header, what is left of the stream is `rest`. */
  predicate Fronts(log: seq<Option<Frame>>, total: (seq<Frame>, Text), rest: (seq<Frame>, Text)) {
    && |Clean(log)| <= |total.0| && Clean(log) == total.0[..|Clean(log)|]
    && (None !in log ==> Taken(total, Clean(log), rest))
  }

  lemma {:induction false} FrontsStep(f: Frame, log: seq<Option<Frame>>, total: (seq<Frame>, Text),
                                      rest: (seq<Frame>, Text))
    requires Fronts(log, total, rest)
    ensures Fronts([Some(f)] + log, ([f] + total.0, total.1), rest)
  {
    var longer := [Some(f)] + log;
    assert longer[1..] == log && Clean(longer) == [f] + Clean(log);
    if None !in longer {
      forall x | x in log ensures x != None {
        assert x in longer;
      }
      assert [f] + (Clean(log) + rest.0) == [f] + Clean(log) + rest.0;
    }
  }

  lemma {:induction false} ReadyPrefix(l: Link)
    ensures var (log, m) := Ready(l);
      Fronts(log, Split(l.Ahead()), Split(m.Ahead())) && (None !in log ==> |m.socket| < HEADER_SIZE)
    decreases |l.Ahead()|
  {
    var (step, l') := Round(l);
    if step.Whole? {
      RoundIsFirst(l);
      ReadyPrefix(l');
      FrontsStep(step.frame, Ready(l').0, Split(l'.Ahead()), Split(Ready(l').1.Ahead()));
    } else if step != NeedHeader {
      assert Ready(l).0[0] == None;
    }
  }

  lemma {:induction false} CleanConcat(a: seq<Option<Frame>>, b: seq<Option<Frame>>)
    ensures Clean(a + b) == if None in a then Clean(a) else Clean(a) + Clean(b)
    decreases |a|
  {
    if a == [] {
      assert a + b == b;
    } else {
      assert (a + b)[1..] == a[1..] + b && a == [a[0]] + a[1..];
      CleanConcat(a[1..], b);
    }
  }

  /** On any bytes, the frames before the first dropped header are the whole frames at the front of the
      stream, in order; all of them, if no header is dropped. */
  lemma {:induction false} IntakePrefix(l: Link)
    requires |l.socket| < HEADER_SIZE
    ensures var (log, m) := Intake(l);
      var total, done := Split(l.Ahead()), Clean(log);
      && |done| <= |total.0| && done == total.0[..|done|]
      && (None !in log ==> total == (done, m.socket))
    decreases |l.pending|
  {
    if l.pending == [] {
      assert l.Ahead() == l.socket;
    } else {
      ArriveKeeps(l);
      ReadyPrefix(l.Arrive());
      var (log, m) := Ready(l.Arrive());
      CleanConcat(log, Intake(m).0);
      if None !in log {
        IntakePrefix(m);
      }
    }
  }

  /** A stream that is cut off: what comes before the first dropped header is a prefix of what was sent;
      without one, exactly the frames that end at or before the cut. */
  lemma {:induction false} CutIntake(fs: seq<Frame>, k: nat, chunks: seq<Text>)
    requires FramesFit(fs) && k <= |EncodeFrames(fs)| && Flatten(chunks) == EncodeFrames(fs)[..k]
    ensures var (log, m) := Intake(Link([], chunks));
      && |Clean(log)| <= |fs| && Clean(log) == fs[..|Clean(log)|]
      && (None !in log ==> Delivered(fs, k, Clean(log), |m.socket|))
  {
    var l := Link([], chunks);
    assert l.Ahead() == Flatten(chunks);
    CutStream(fs, k);
    IntakePrefix(l);
    var done, got := Clean(Intake(l).0), Split(l.Ahead()).0;
    assert got[..|done|] == fs[..|got|][..|done|] == fs[..|done|];
  }

  lemma {:induction false} RoundIsFirst(l: Link)
    requires Round(l).0.Whole?
    ensures var (step, m) := Round(l);
      Split(l.Ahead()) == ([step.frame] + Split(m.Ahead()).0, Split(m.Ahead()).1)
  {
    var header, rest := l.socket[..HEADER_SIZE], Link(l.socket[HEADER_SIZE..], l.pending);
    var n := DecodeHeader(l.socket).packetLength;
    var w := Wait(rest, n, MAX_RETRIES);
    WaitKeeps(rest, n, MAX_RETRIES);
    CutAhead(l, HEADER_SIZE);
    CutAhead(w, n);
    assert DecodeHeader(header) == DecodeHeader(l.socket);
    WholeFrame(l.Ahead(), header, w.socket[..n], Round(l).1.Ahead());
  }

  lemma {:induction false} CutAhead(l: Link, n: nat)
    requires n <= |l.socket|
    ensures l.Ahead() == l.socket[..n] + Link(l.socket[n..], l.pending).Ahead()
  {
    assert l.socket == l.socket[..n] + l.socket[n..];
    AppendTwice(l.socket[..n], l.socket[n..], Flatten(l.pending));
  }

  /* A payload that comes too late */

  lemma {:induction false} FlattenConcat(a: seq<Text>, b: seq<Text>)
    ensures Flatten(a + b) == Flatten(a) + Flatten(b)
    decreases |a|
  {
    if a == [] {
      assert a + b == b;
    } else {
      assert (a + b)[1..] == a[1..] + b;
      FlattenConcat(a[1..], b);
      AppendTwice(a[0], Flatten(a[1..]), Flatten(b));
    }
  }

  function Idle(k: nat): (chunks: seq<Text>)
    ensures |chunks| == k && Flatten(chunks) == []
  {
    if k == 0 then [] else [[]] + Idle(k - 1)
  }

  lemma {:induction false} IdleWait(socket: Text, pending: seq<Text>, n: nat, k: nat)
    requires |socket| < n
    ensures Wait(Link(socket, Idle(k) + pending), n, k) == Link(socket, pending)
  {
    if k == 0 {
      assert Idle(0) + pending == pending;
    } else {
      assert (Idle(k) + pending)[1..] == Idle(k - 1) + pending && socket + [] == socket;
      IdleWait(socket, pending, n, k - 1);
    }
  }

  /** A header, a hundred sleeps in which nothing arrives, and then the payload. */
  function LateChunks(f: Frame): seq<Text>
    requires FrameFits(f)
  {
    [EncodeHeader(HeaderVal(PROTOCOL_VERSION, f.operation, |f.payload|))] + (Idle(MAX_RETRIES) + [f.payload])
  }

  lemma {:induction false} LateStream(f: Frame)
    requires FrameFits(f)
    ensures Flatten(LateChunks(f)) == EncodeFrames([f])
  {
    OneFrame(f);
    FlattenConcat(Idle(MAX_RETRIES), [f.payload]);
    assert [f.payload][1..] == [] && [] + f.payload == f.payload;
    assert LateChunks(f)[1..] == Idle(MAX_RETRIES) + [f.payload];
  }

  /** The wait times out, and the payload is then read as a stream of its own. */
  lemma {:induction false} LateSignal(f: Frame)
    requires FrameFits(f) && f.payload != []
    ensures Ready(Link([], LateChunks(f)).Arrive()) == ([None], Link([], [f.payload]))
  {
    var h := HeaderVal(PROTOCOL_VERSION, f.operation, |f.payload|);
    HeaderRoundTrip(h);
    var rest := Idle(MAX_RETRIES) + [f.payload];
    assert LateChunks(f)[1..] == rest;
    var l := Link([], LateChunks(f)).Arrive();
    assert l == Link(EncodeHeader(h), rest) && l.socket[HEADER_SIZE..] == [];
    IdleWait([], [f.payload], |f.payload|, MAX_RETRIES);
  }

  /** A concrete way to lose a frame and to dispatch another: a payload that is itself an encoded
      frame, one sleep too late. */
  lemma {:induction false} LateFrame(operation: byte, g: Frame)
    requires |g.payload| <= 0xFFFF - HEADER_SIZE
    ensures var f := Frame(operation, EncodeFrame(g));
      && FrameFits(f) && Flatten(LateChunks(f)) == EncodeFrames([f]) && !InTime(LateChunks(f), [f])
      && Intake(Link([], LateChunks(f))).0 == [None, Some(g)]
      && Frames(Intake(Link([], LateChunks(f))).0) == [g]
      && [g] != [f]
  {
    var f := Frame(operation, EncodeFrame(g));
    LateStream(f);
    LateSignal(f);
    LastFrame(g);
    DeliveredExactly(LateChunks(f), [f]);
    TwoEntries(g);
  }

  lemma {:induction false} LastFrame(g: Frame)
    requires FrameFits(g)
    ensures Intake(Link([], [EncodeFrame(g)])).0 == [Some(g)]
  {
    var e := EncodeFrame(g);
    OneFrame(g);
    assert Flatten([e]) == e + [];
    assert InTime([e], [g]) by {
      assert PayloadInTime(0, [e], [g], 0);
    }
    IntakeOnFrames(Link([], [e]), [g]);
  }

  lemma {:induction false} TwoEntries(g: Frame)
    ensures [None] + [Some(g)] == [None, Some(g)] && Frames([None, Some(g)]) == [g] && None in [None, Some(g)]
  {
    var log := [None, Some(g)];
    var last: seq<Option<Frame>> := [Some(g)];
    assert log[0] == None && log[1..] == last && last[1..] == [];
    assert Frames(last) == [g];
  }
}
