/**
 The buffered writer of behaviour entries: producers send into a bounded
 channel, one background goroutine collects batches in a reused slice and hands
 copies of them to the database.

 Every method of `AnalyticsService` except the last two is one step of one
 goroutine, so producers and the writer interleave step by step, also while the
 writer drains the channel. A batch counts as flushed when it is handed to the
 goroutine that inserts it.
*/
module BatchWriter {
  import opened BehaviorBatch

  const ChannelSize := 10000
  const BatchSize := 200

  /** The writer waits in its select, drains (for good or not), or has returned. */
  datatype Mode = Running | Draining(final: bool) | Stopped

  datatype State = State(
    accepted: seq<Entry>,
    flushed: seq<seq<Entry>>,
    batch: seq<Entry>,
    channel: seq<Entry>,
    signal: bool,
    closed: bool,
    mode: Mode)

  const Initial := State([], [], [], [], false, false, Running)

  datatype Step =
    | Send(entry: Entry)
    | Signal
    | CloseService
    | Receive
    | Tick
    | TakeSignal
    | TakeClose
    | Drain

  predicate Enabled(s: State, a: Step) {
    match a
    case Receive => s.mode == Running && s.channel != []
    case Tick => s.mode == Running
    case TakeSignal => s.mode == Running && s.signal
    case TakeClose => s.mode == Running && s.closed
    case Drain => s.mode.Draining?
    case CloseService => !s.closed
    case _ => true
  }

  function Flushed(s: State): State {
    if s.batch == [] then s else s.(flushed := s.flushed + [s.batch], batch := [])
  }

  /** Take the oldest entry of the channel into the batch, flushing a full batch. */
  function Taken(s: State): State
    requires s.channel != []
  {
    var s1 := s.(batch := s.batch + [s.channel[0]], channel := s.channel[1..]);
    if |s1.batch| >= BatchSize then Flushed(s1) else s1
  }

  function Next(s: State, a: Step): State
    requires Enabled(s, a)
  {
    match a
    case Send(entry) =>
      if |s.channel| < ChannelSize then s.(accepted := s.accepted + [entry], channel := s.channel + [entry]) else s
    case Signal => s.(signal := true)
    case CloseService => s.(closed := true)
    case Receive => Taken(s)
    case Tick => Flushed(s)
    case TakeSignal => s.(signal := false, mode := Draining(false))
    case TakeClose => s.(mode := Draining(true))
    case Drain =>
      if s.channel != [] then Taken(s)
      else Flushed(s).(mode := if s.mode.final then Stopped else Running)
  }

  /** The steps can be taken one after another. */
  predicate CanRun(s: State, steps: seq<Step>)
    decreases |steps|, 0
  {
    steps == [] ||
      var n := |steps| - 1;
      CanRun(s, steps[..n]) && Enabled(After(s, steps[..n]), steps[n])
  }

  function After(s: State, steps: seq<Step>): State
    requires CanRun(s, steps)
    decreases |steps|, 1
  {
    if steps == [] then s else Next(After(s, steps[..|steps| - 1]), steps[|steps| - 1])
  }

  function Concat(batches: seq<seq<Entry>>): seq<Entry> {
    if batches == [] then [] else Concat(batches[..|batches| - 1]) + batches[|batches| - 1]
  }

  ghost predicate Sized(batches: seq<seq<Entry>>) {
    forall i :: 0 <= i < |batches| ==> 1 <= |batches[i]| <= BatchSize
  }

  /** No accepted entry is lost, duplicated or reordered, and every batch has a sane size. */
  ghost predicate Conserved(s: State) {
    && s.accepted == Concat(s.flushed) + s.batch + s.channel
    && |s.batch| < BatchSize
    && |s.channel| <= ChannelSize
    && Sized(s.flushed)
    && (s.mode.Stopped? ==> s.batch == [])
  }

  lemma ConcatAppend(batches: seq<seq<Entry>>, batch: seq<Entry>)
    ensures Concat(batches + [batch]) == Concat(batches) + batch
  {
    assert (batches + [batch])[..|batches|] == batches;
  }

  lemma FlushKeepsOrder(s: State)
    requires s.accepted == Concat(s.flushed) + s.batch + s.channel
    ensures Flushed(s).accepted == Concat(Flushed(s).flushed) + Flushed(s).batch + Flushed(s).channel
  {
    ConcatAppend(s.flushed, s.batch);
    if s.batch != [] {
      var all := Concat(Flushed(s).flushed);
      assert all == Concat(s.flushed) + s.batch;
      assert all + [] == all;
    }
  }

  lemma SizedAppend(batches: seq<seq<Entry>>, batch: seq<Entry>)
    requires Sized(batches) && 1 <= |batch| <= BatchSize
    ensures Sized(batches + [batch])
  {
  }

  /** Flushing keeps the order, even of a batch that has just become full. */
  lemma FlushConserves(s: State)
    requires s.accepted == Concat(s.flushed) + s.batch + s.channel && Sized(s.flushed)
    requires |s.batch| <= BatchSize && |s.channel| <= ChannelSize && s.mode != Stopped
    ensures Conserved(Flushed(s)) && s.flushed <= Flushed(s).flushed
  {
    FlushKeepsOrder(s);
    if s.batch != [] {
      SizedAppend(s.flushed, s.batch);
    }
  }

  lemma MoveFirst(front: seq<Entry>, channel: seq<Entry>)
    requires channel != []
    ensures front + [channel[0]] + channel[1..] == front + channel
  {
  }

  lemma TakeConserves(s: State)
    requires Conserved(s) && s.channel != [] && s.mode != Stopped
    ensures Conserved(Taken(s)) && s.flushed <= Taken(s).flushed
  {
    var full := s.(batch := s.batch + [s.channel[0]], channel := s.channel[1..]);
    MoveFirst(Concat(s.flushed) + s.batch, s.channel);
    assert Concat(s.flushed) + full.batch == Concat(s.flushed) + s.batch + [s.channel[0]];
    if |full.batch| >= BatchSize {
      FlushConserves(full);
    }
  }

  lemma NextConserves(s: State, a: Step)
    requires Enabled(s, a) && Conserved(s)
    ensures Conserved(Next(s, a)) && s.flushed <= Next(s, a).flushed
  {
    match a
    case Send(entry) =>
      assert Concat(s.flushed) + s.batch + (s.channel + [entry]) == Concat(s.flushed) + s.batch + s.channel + [entry];
    case Receive => TakeConserves(s);
    case Tick => FlushConserves(s);
    case Drain =>
      if s.channel != [] {
        TakeConserves(s);
      } else {
        FlushConserves(s);
      }
    case _ =>
  }

  // ---------------------------------------------------------------------
  // What a producer finds at its second try.
  // ---------------------------------------------------------------------

  /** The places the writer frees in the channel. */
  function FreedBy(s: State, a: Step): nat {
    if (a.Receive? || a.Drain?) && s.channel != [] then 1 else 0
  }

  function Freed(s: State, steps: seq<Step>): nat
    requires CanRun(s, steps)
  {
    if steps == [] then 0
    else
      var front := steps[..|steps| - 1];
      Freed(s, front) + FreedBy(After(s, front), steps[|steps| - 1])
  }

  lemma FreedStep(s: State, a: Step)
    requires Enabled(s, a)
    ensures |Next(s, a).channel| + FreedBy(s, a) == |s.channel| + (|Next(s, a).accepted| - |s.accepted|)
  {
  }

  lemma {:induction false} ChannelBalance(s: State, steps: seq<Step>)
    requires CanRun(s, steps)
    ensures |After(s, steps).channel| + Freed(s, steps) == |s.channel| + (|After(s, steps).accepted| - |s.accepted|)
    ensures |s.channel| <= ChannelSize ==> |After(s, steps).channel| <= ChannelSize
  {
    if steps != [] {
      var front, a := steps[..|steps| - 1], steps[|steps| - 1];
      ChannelBalance(s, front);
      FreedStep(After(s, front), a);
    }
  }

  /**
   An entry that met a full channel is dropped exactly when others have filled
   every place the writer freed before its second try.
   */
  lemma DroppedExactly(s: State, between: seq<Step>)
    requires |s.channel| == ChannelSize && CanRun(Next(s, Signal), between)
    ensures var asked := Next(s, Signal);
            |After(asked, between).channel| == ChannelSize <==>
              |After(asked, between).accepted| - |s.accepted| == Freed(asked, between)
  {
    ChannelBalance(Next(s, Signal), between);
  }

  /** So the second try is not in vain: the signal lets a waiting writer make room at once. */
  lemma SignalMakesRoom(s: State)
    requires s.mode == Running && |s.channel| == ChannelSize
    ensures var asked, steps := Next(s, Signal), [TakeSignal, Drain];
            CanRun(asked, steps) && |After(asked, steps).channel| == ChannelSize - 1
  {
    var asked, steps := Next(s, Signal), [TakeSignal, Drain];
    assert steps[..1] == [TakeSignal] && [TakeSignal][..0] == [];
    assert CanRun(asked, []) && After(asked, []) == asked;
    assert CanRun(asked, [TakeSignal]) && After(asked, [TakeSignal]) == Next(asked, TakeSignal);
    FreedStep(Next(asked, TakeSignal), Drain);
  }

  ghost predicate IsRun(states: seq<State>, steps: seq<Step>) {
    && |states| == |steps| + 1
    && states[0] == Initial
    && forall i :: 0 <= i < |steps| ==> Enabled(states[i], steps[i]) && states[i + 1] == Next(states[i], steps[i])
  }

  /** In every reachable state, accepted entries == flushed batches, then the batch, then the channel, in order. */
  lemma {:induction false} AlwaysConserved(states: seq<State>, steps: seq<Step>, k: nat)
    requires IsRun(states, steps) && k < |states|
    ensures Conserved(states[k])
  {
    if k > 0 {
      AlwaysConserved(states, steps, k - 1);
      NextConserves(states[k - 1], steps[k - 1]);
      assert states[k - 1 + 1] == states[k];
    }
  }

  // ---------------------------------------------------------------------
  // What producers sent.
  // ---------------------------------------------------------------------

  /** The entries of the first k steps that are sends into a channel with room, in order. */
  function SentWithRoom(states: seq<State>, steps: seq<Step>, k: nat): seq<Entry>
    requires k <= |steps| && |steps| <= |states|
  {
    if k == 0 then []
    else
      SentWithRoom(states, steps, k - 1)
      + (if steps[k - 1].Send? && |states[k - 1].channel| < 10000 then [steps[k - 1].entry] else [])
  }

  /** Exactly these are accepted. */
  lemma {:induction false} AcceptedExactly(states: seq<State>, steps: seq<Step>, k: nat)
    requires IsRun(states, steps) && k < |states|
    ensures states[k].accepted == SentWithRoom(states, steps, k)
  {
    if k > 0 {
      AcceptedExactly(states, steps, k - 1);
      assert states[k - 1 + 1] == Next(states[k - 1], steps[k - 1]);
    }
  }

  lemma {:induction false} SentIsThere(states: seq<State>, steps: seq<Step>, i: nat, k: nat)
    requires i < k <= |steps| && |steps| <= |states|
    requires steps[i].Send? && |states[i].channel| < 10000
    ensures steps[i].entry in SentWithRoom(states, steps, k)
  {
    if i < k - 1 {
      SentIsThere(states, steps, i, k - 1);
    }
  }

  lemma {:induction false} InSomeBatch(batches: seq<seq<Entry>>, e: Entry) returns (b: nat)
    requires e in Concat(batches)
    ensures b < |batches| && e in batches[b]
  {
    var n := |batches| - 1;
    if e in batches[n] {
      b := n;
    } else {
      b := InSomeBatch(batches[..n], e);
    }
  }

  /** Every entry sent into a channel with room before the writer stops ends in a flushed batch. */
  lemma KeptIsFlushed(states: seq<State>, steps: seq<Step>, i: nat, stop: nat, j: nat) returns (b: nat)
    requires IsRun(states, steps) && i < stop < j < |states|
    requires states[stop].mode != Stopped && states[stop + 1].mode == Stopped
    requires steps[i].Send? && |states[i].channel| < 10000
    ensures b < |states[j].flushed| && steps[i].entry in states[j].flushed[b]
  {
    SentIsThere(states, steps, i, stop);
    AcceptedExactly(states, steps, stop);
    StopFlushesEverything(states, steps, stop, j);
    b := InSomeBatch(states[j].flushed, steps[i].entry);
  }

  /** The statement that inserts a flushed batch has at most 600 parameters. */
  lemma AtMost600Parameters(states: seq<State>, steps: seq<Step>, k: nat, i: nat, args: seq<Arg>)
    requires IsRun(states, steps) && k < |states| && i < |states[k].flushed|
    requires Bound(args, states[k].flushed[i])
    ensures 3 <= |args| <= 600
  {
    AlwaysConserved(states, steps, k);
  }

  /** A flushed batch never changes afterwards. */
  lemma {:induction false} FlushedIsFinal(states: seq<State>, steps: seq<Step>, i: nat, j: nat)
    requires IsRun(states, steps) && i <= j < |states|
    ensures states[i].flushed <= states[j].flushed
  {
    if i < j {
      FlushedIsFinal(states, steps, i, j - 1);
      AlwaysConserved(states, steps, j - 1);
      NextConserves(states[j - 1], steps[j - 1]);
      assert states[j - 1 + 1] == states[j];
    }
  }

  /** The last drain step leaves channel and batch empty. */
  lemma StoppingStep(s: State, a: Step)
    requires Enabled(s, a) && Conserved(s) && s.mode != Stopped && Next(s, a).mode == Stopped
    ensures Next(s, a).accepted == s.accepted == Concat(Next(s, a).flushed)
    ensures Next(s, a).channel == []
  {
    NextConserves(s, a);
  }

  lemma StoppedStep(s: State, a: Step)
    requires Enabled(s, a) && s.mode == Stopped
    ensures Next(s, a).mode == Stopped && Next(s, a).flushed == s.flushed
  {
  }

  lemma {:induction false} StoppedForever(states: seq<State>, steps: seq<Step>, i: nat, j: nat)
    requires IsRun(states, steps) && i <= j < |states| && states[i].mode == Stopped
    ensures states[j].mode == Stopped && states[j].flushed == states[i].flushed
  {
    if i < j {
      StoppedForever(states, steps, i, j - 1);
      StoppedStep(states[j - 1], steps[j - 1]);
      assert states[j - 1 + 1] == states[j];
    }
  }

  /**
   When the writer returns, everything accepted until then has been flushed;
   what producers still manage to send afterwards stays in the channel.
   */
  lemma StopFlushesEverything(states: seq<State>, steps: seq<Step>, i: nat, j: nat)
    requires IsRun(states, steps) && i < j < |states|
    requires states[i].mode != Stopped && states[i + 1].mode == Stopped
    ensures states[j].mode == Stopped && Concat(states[j].flushed) == states[i].accepted
    ensures states[j].accepted == states[i].accepted + states[j].channel
  {
    AlwaysConserved(states, steps, i);
    AlwaysConserved(states, steps, j);
    StoppingStep(states[i], steps[i]);
    StoppedForever(states, steps, i + 1, j);
  }

  // ---------------------------------------------------------------------
  // The service as the program keeps it.
  // ---------------------------------------------------------------------

  ghost function Contents(batches: seq<array<Entry>>): (s: seq<seq<Entry>>)
    reads batches
    ensures |s| == |batches|
  {
    if batches == [] then [] else Contents(batches[..|batches| - 1]) + [batches[|batches| - 1][..]]
  }

  lemma ContentsAppend(batches: seq<array<Entry>>, a: array<Entry>)
    ensures Contents(batches + [a]) == Contents(batches) + [a[..]]
  {
    assert (batches + [a])[..|batches|] == batches;
  }

  method Copied(a: array<Entry>, n: nat) returns (b: array<Entry>)
    requires n <= a.Length
    ensures fresh(b) && b[..] == a[..n]
  {
    b := new Entry[n](_ => Entry(0, "", ""));
    var i := 0;
    while i < n
      invariant 0 <= i <= n && b[..i] == a[..i]
    {
      b[i] := a[i];
      i := i + 1;
    }
  }

  class AnalyticsService {
    // The slice `batch` is the first n elements of one array, used again and again.
    const buffer: array<Entry>
    var n: nat
    var bufCh: seq<Entry>
    var flushCh: bool
    var closeCh: bool
    var mode: Mode
    // The copies handed to the inserting goroutines.
    var written: seq<array<Entry>>
    ghost var accepted: seq<Entry>

    ghost predicate Valid()
      reads this
    {
      && buffer.Length == BatchSize
      && n < BatchSize
      && buffer !in written
    }

    ghost function View(): State
      requires Valid()
      reads this, buffer, written
    {
      State(accepted, Contents(written), buffer[..n], bufCh, flushCh, closeCh, mode)
    }

    constructor ()
      ensures Valid() && View() == Initial
      ensures fresh(buffer) && written == []
    {
      buffer := new Entry[BatchSize](_ => Entry(0, "", ""));
      n := 0;
      bufCh := [];
      flushCh := false;
      closeCh := false;
      mode := Running;
      written := [];
      accepted := [];
    }

    /** A non-blocking send. */
    method TrySend(entry: Entry) returns (ok: bool)
      requires Valid()
      modifies this
      ensures Valid() && View() == Next(old(View()), Send(entry))
      ensures ok == (|old(bufCh)| < 10000)
      ensures ok ==> bufCh == old(bufCh) + [entry] && accepted == old(accepted) + [entry]
      ensures !ok ==> bufCh == old(bufCh) && accepted == old(accepted)
      ensures n == old(n) && written == old(written)
    {
      ok := |bufCh| < ChannelSize;
      if ok {
        bufCh := bufCh + [entry];
        accepted := accepted + [entry];
      }
    }

    method SignalFlush()
      requires Valid()
      modifies this
      ensures Valid() && View() == Next(old(View()), Signal)
      ensures flushCh && bufCh == old(bufCh) && n == old(n) && written == old(written) && accepted == old(accepted)
    {
      flushCh := true;
    }

    method Close()
      requires Valid() && !closeCh
      modifies this
      ensures Valid() && View() == Next(old(View()), CloseService)
      ensures closeCh && bufCh == old(bufCh) && n == old(n) && written == old(written) && accepted == old(accepted)
    {
      closeCh := true;
    }

    /** Hand a copy of the batch to the database and start the slice again. */
    method Flush()
      requires buffer.Length == BatchSize && n <= BatchSize && buffer !in written
      modifies this
      ensures Valid() && n == 0
      ensures old(n) == 0 ==> written == old(written)
      ensures old(n) > 0 ==> |written| == |old(written)| + 1 && written[..|old(written)|] == old(written)
      ensures Contents(written) == old(Contents(written)) + (if old(n) == 0 then [] else [old(buffer[..n])])
      ensures bufCh == old(bufCh) && flushCh == old(flushCh) && closeCh == old(closeCh)
      ensures mode == old(mode) && accepted == old(accepted)
    {
      if n == 0 {
        return;
      }
      var toWrite := Copied(buffer, n);
      ContentsAppend(written, toWrite);
      written := written + [toWrite];
      n := 0;
    }

    /** Append to the slice; it never grows past its capacity, so it is never reallocated. */
    method TakeEntry()
      requires Valid() && bufCh != []
      modifies this, buffer
      ensures Valid() && View() == Taken(old(View()))
      ensures bufCh == old(bufCh)[1..] && accepted == old(accepted)
      ensures old(n) + 1 < 200 ==>
        written == old(written) && n == old(n) + 1 && buffer[..n] == old(buffer[..n]) + [old(bufCh)[0]]
      ensures old(n) + 1 >= 200 ==>
        n == 0 && Contents(written) == old(Contents(written)) + [old(buffer[..n]) + [old(bufCh)[0]]]
    {
      var entry := bufCh[0];
      bufCh := bufCh[1..];
      buffer[n] := entry;
      n := n + 1;
      assert buffer[..n] == old(buffer[..n]) + [entry];
      if n >= BatchSize {
        Flush();
      }
    }

    method WriterReceive()
      requires Valid() && Enabled(View(), Receive)
      modifies this, buffer
      ensures Valid() && View() == Next(old(View()), Receive)
      ensures bufCh == old(bufCh)[1..] && accepted == old(accepted)
      ensures old(n) + 1 < 200 ==>
        written == old(written) && n == old(n) + 1 && buffer[..n] == old(buffer[..n]) + [old(bufCh)[0]]
      ensures old(n) + 1 >= 200 ==>
        n == 0 && Contents(written) == old(Contents(written)) + [old(buffer[..n]) + [old(bufCh)[0]]]
    {
      TakeEntry();
    }

    method WriterTick()
      requires Valid() && Enabled(View(), Tick)
      modifies this
      ensures Valid() && View() == Next(old(View()), Tick)
      ensures n == 0 && bufCh == old(bufCh) && accepted == old(accepted) && mode == old(mode)
      ensures Contents(written) == old(Contents(written)) + (if old(n) == 0 then [] else [old(buffer[..n])])
    {
      Flush();
    }

    method WriterTakeSignal()
      requires Valid() && Enabled(View(), TakeSignal)
      modifies this
      ensures Valid() && View() == Next(old(View()), TakeSignal)
      ensures !flushCh && mode == Draining(false)
      ensures bufCh == old(bufCh) && n == old(n) && written == old(written) && accepted == old(accepted)
    {
      flushCh := false;
      mode := Draining(false);
    }

    method WriterTakeClose()
      requires Valid() && Enabled(View(), TakeClose)
      modifies this
      ensures Valid() && View() == Next(old(View()), TakeClose)
      ensures mode == Draining(true)
      ensures bufCh == old(bufCh) && n == old(n) && written == old(written) && accepted == old(accepted)
    {
      mode := Draining(true);
    }

    method WriterDrain()
      requires Valid() && Enabled(View(), Drain)
      modifies this, buffer
      ensures Valid() && View() == Next(old(View()), Drain)
      ensures old(bufCh) != [] ==> bufCh == old(bufCh)[1..] && mode == old(mode)
      ensures old(bufCh) == [] ==> bufCh == [] && n == 0 && mode == (if old(mode).final then Stopped else Running)
    {
      if bufCh != [] {
        TakeEntry();
      } else {
        Flush();
        mode := if mode.final then Stopped else Running;
      }
    }

    /** A drain with no producer active empties channel and batch into flushed batches. */
    method DrainAndFlush()
      requires Valid() && Conserved(View()) && mode.Draining?
      modifies this, buffer
      ensures Valid() && Conserved(View())
      ensures bufCh == [] && n == 0 && mode == (if old(mode).final then Stopped else Running)
      ensures Concat(View().flushed) == accepted == old(accepted)
    {
      ghost var final, all := mode.final, accepted;
      while mode.Draining?
        invariant Valid() && Conserved(View()) && accepted == all
        invariant mode == Draining(final) || (mode == (if final then Stopped else Running) && bufCh == [] && n == 0)
        decreases mode.Draining?, |bufCh|
      {
        NextConserves(View(), Drain);
        WriterDrain();
      }
    }

    /** One step of any goroutine. */
    method Perform(a: Step)
      requires Valid() && Enabled(View(), a)
      modifies this, buffer
      ensures Valid() && View() == Next(old(View()), a)
    {
      match a
      case Send(entry) => var _ := TrySend(entry);
      case Signal => SignalFlush();
      case CloseService => Close();
      case Receive => WriterReceive();
      case Tick => WriterTick();
      case TakeSignal => WriterTakeSignal();
      case TakeClose => WriterTakeClose();
      case Drain => WriterDrain();
    }

    /** Whatever the writer and other producers do meanwhile. */
    method Others() returns (ghost ran: seq<Step>)
      requires Valid()
      modifies this, buffer
      ensures Valid() && CanRun(old(View()), ran) && View() == After(old(View()), ran)
    {
      ran := [];
      var more: nat := *;
      while more > 0
        invariant Valid() && CanRun(old(View()), ran) && View() == After(old(View()), ran)
      {
        var a: Step := *;
        var possible := CanDo(a);
        if possible {
          ghost var before := ran;
          Perform(a);
          ran := ran + [a];
          assert ran[..|ran| - 1] == before;
        }
        more := more - 1;
      }
    }

    method CanDo(a: Step) returns (can: bool)
      requires Valid()
      ensures can == Enabled(View(), a)
    {
      match a
      case Receive => can := mode == Running && bufCh != [];
      case Tick => can := mode == Running;
      case TakeSignal => can := mode == Running && flushCh;
      case TakeClose => can := mode == Running && closeCh;
      case Drain => can := mode.Draining?;
      case CloseService => can := !closeCh;
      case _ => can := true;
    }

    /**
     Try once; if the channel is full ask for a flush and try once more, after
     whatever the others did in between. The entry is kept exactly when one of
     the two tries finds room.
     */
    method LogOrderCreated(entry: Entry) returns (kept: bool, ghost between: seq<Step>)
      requires Valid()
      modifies this, buffer
      ensures Valid()
      ensures |old(bufCh)| < 10000 ==>
        && kept && between == []
        && bufCh == old(bufCh) + [entry] && accepted == old(accepted) + [entry]
        && n == old(n) && written == old(written)
      ensures |old(bufCh)| >= 10000 ==>
        var asked := old(View()).(signal := true);
        && CanRun(asked, between)
        && var found := After(asked, between);
          && kept == (|found.channel| < 10000)
          && bufCh == found.channel + (if kept then [entry] else [])
          && accepted == found.accepted + (if kept then [entry] else [])
          && Contents(written) == found.flushed && buffer[..n] == found.batch
    {
      between := [];
      kept := TrySend(entry);
      if !kept {
        SignalFlush();
        between := Others();
        kept := TrySend(entry);
      }
    }
  }
}
