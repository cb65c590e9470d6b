/** Filing manifest sources under their content: one producer, a channel and a pool of workers that share the
    content map and the reference counts under a lock. Each step is one lock-held region, one channel operation
    or one end of a goroutine. */
module SqfsAccounting {
  import opened Options

  type Src = string
  type Path = string

  datatype Worker = Idle | Holding(src: Src) | Gone

  /** `entries` are the sources of the manifest, in order; `computed` is the history of stored content paths. */
  datatype State = State(
    next: nat,
    sending: Option<Src>,
    channel: seq<Src>,
    closed: bool,
    workers: seq<Worker>,
    contentMap: map<Src, Path>,
    duplicates: map<Src, nat>,
    computed: map<Src, Path>,
    failed: bool)

  /** What filing a source comes to: its content path, or an error. */
  datatype Outcome = Stored(path: Path) | Error

  datatype Step =
    | Produce
    | Send
    | Close
    | Receive(worker: nat)
    | Store(worker: nat, outcome: Outcome)
    | End(worker: nat)

  const WORKER_COUNT := 100

  function Count(m: map<Src, nat>, s: Src): nat {
    if s in m then m[s] else 0
  }

  function Increment(m: map<Src, nat>, s: Src): map<Src, nat> {
    m[s := Count(m, s) + 1]
  }

  function Init(n: nat): State {
    State(0, None, [], false, seq(n, _ => Idle), map[], map[], map[], false)
  }

  predicate Enabled(entries: seq<Src>, s: State, step: Step) {
    match step
    case Produce => s.sending.None? && s.next < |entries|
    case Send => s.sending.Some? && |s.channel| < WORKER_COUNT
    case Close => s.sending.None? && s.next == |entries| && !s.closed
    case Receive(w) => w < |s.workers| && s.workers[w].Idle? && s.channel != []
    case Store(w, _) => w < |s.workers| && s.workers[w].Holding?
    case End(w) => w < |s.workers| && s.workers[w].Idle? && s.channel == [] && s.closed
  }

  function Next(entries: seq<Src>, linkBuckets: bool, s: State, step: Step): State
    requires Enabled(entries, s, step)
  {
    match step
    case Produce =>
      var src := entries[s.next];
      if src !in s.contentMap then
        s.(next := s.next + 1, contentMap := s.contentMap[src := ""], sending := Some(src))
      else
        s.(next := s.next + 1,
           duplicates := if linkBuckets && src != "" then Increment(s.duplicates, src) else s.duplicates)
    case Send => s.(channel := s.channel + [s.sending.value], sending := None)
    case Close => s.(closed := true)
    case Receive(w) =>
      var src := s.channel[0];
      s.(channel := s.channel[1..], workers := if src == "" then s.workers else s.workers[w := Holding(src)])
    case Store(w, Stored(path)) =>
      var src := s.workers[w].src;
      s.(contentMap := s.contentMap[src := path],
         computed := s.computed[src := path],
         duplicates := if linkBuckets then Increment(s.duplicates, src) else s.duplicates,
         workers := s.workers[w := Idle])
    case Store(w, Error) => s.(failed := true, workers := s.workers[w := Gone])
    case End(w) => s.(workers := s.workers[w := Gone])
  }

  ghost predicate Execution(entries: seq<Src>, linkBuckets: bool, n: nat, steps: seq<Step>, states: seq<State>) {
    && |states| == |steps| + 1
    && states[0] == Init(n)
    && forall i {:trigger steps[i]} :: 0 <= i < |steps| ==>
         Enabled(entries, states[i], steps[i]) && states[i + 1] == Next(entries, linkBuckets, states[i], steps[i])
  }

  // ----- the invariant -----

  function Holds(w: Worker, s: Src): nat {
    if w == Holding(s) then 1 else 0
  }

  function Holders(ws: seq<Worker>, s: Src): nat {
    if ws == [] then 0 else Holds(ws[0], s) + Holders(ws[1..], s)
  }

  lemma {:induction false} HoldersUpdate(ws: seq<Worker>, w: nat, x: Worker, s: Src)
    requires w < |ws|
    ensures Holders(ws[w := x], s) == Holders(ws, s) - Holds(ws[w], s) + Holds(x, s)
  {
    if w == 0 {
      assert ws[0 := x][1..] == ws[1..];
    } else {
      assert ws[w := x][0] == ws[0] && ws[w := x][1..] == ws[1..][w - 1 := x];
      HoldersUpdate(ws[1..], w - 1, x, s);
    }
  }

  lemma {:induction false} NoHolders(ws: seq<Worker>, s: Src)
    requires forall w :: 0 <= w < |ws| ==> !ws[w].Holding?
    ensures Holders(ws, s) == 0
  {
    if ws != [] {
      NoHolders(ws[1..], s);
    }
  }

  /** How often a source is on its way to being stored. */
  function InFlight(s: State, src: Src): nat {
    (if s.sending == Some(src) then 1 else 0) + multiset(s.channel)[src] + Holders(s.workers, src)
  }

  /** How many of the first `n` entries have the source. */
  function Occurrences(entries: seq<Src>, n: nat, src: Src): nat
    requires n <= |entries|
  {
    if n == 0 then 0 else Occurrences(entries, n - 1, src) + One(entries[n - 1] == src)
  }

  function One(b: bool): nat {
    if b then 1 else 0
  }

  /** As long as nothing failed: a source met so far is in flight once or stored, and has been counted for
      every occurrence but the one that may be in flight. */
  ghost predicate Accounted(entries: seq<Src>, linkBuckets: bool, s: State, src: Src)
    requires s.next <= |entries|
  {
    && (src in s.contentMap <==> Occurrences(entries, s.next, src) > 0)
    && (src in s.computed ==> src in s.contentMap && s.contentMap[src] == s.computed[src])
    && (src != "" ==> InFlight(s, src) + One(src in s.computed) == One(src in s.contentMap))
    && (src == "" ==> src !in s.computed)
    && (linkBuckets && src != "" ==>
          Count(s.duplicates, src) + InFlight(s, src) == Occurrences(entries, s.next, src))
    && (src == "" || !linkBuckets ==> src !in s.duplicates)
    && (src in s.duplicates ==> src in s.contentMap)
  }

  ghost predicate Invariant(entries: seq<Src>, linkBuckets: bool, s: State) {
    && s.next <= |entries|
    && (s.closed ==> s.sending.None? && s.next == |entries|)
    && (forall w :: 0 <= w < |s.workers| ==> s.workers[w] != Holding(""))
    && (!s.failed ==>
          && (forall w :: 0 <= w < |s.workers| && s.workers[w].Gone? ==> s.closed && s.channel == [])
          && forall src {:trigger Accounted(entries, linkBuckets, s, src)} :: Accounted(entries, linkBuckets, s, src))
  }

  lemma InvariantInit(entries: seq<Src>, linkBuckets: bool, n: nat)
    ensures Invariant(entries, linkBuckets, Init(n))
  {
    var s := Init(n);
    forall src
      ensures Accounted(entries, linkBuckets, s, src)
    {
      NoHolders(s.workers, src);
    }
  }

  lemma AccountedMoves(entries: seq<Src>, linkBuckets: bool, s: State, step: Step, src: Src)
    requires s.next <= |entries| && Accounted(entries, linkBuckets, s, src) && Enabled(entries, s, step)
    requires !step.Produce? && !step.Store?
    ensures Accounted(entries, linkBuckets, Next(entries, linkBuckets, s, step), src)
  {
    match step
    case Receive(w) =>
      assert s.channel == [s.channel[0]] + s.channel[1..];
      HoldersUpdate(s.workers, w, Holding(s.channel[0]), src);
    case End(w) => HoldersUpdate(s.workers, w, Gone, src);
    case _ =>
  }

  lemma AccountedStore(entries: seq<Src>, linkBuckets: bool, s: State, w: nat, path: Path, src: Src)
    requires s.next <= |entries| && Accounted(entries, linkBuckets, s, src)
    requires Enabled(entries, s, Store(w, Stored(path))) && s.workers[w].src != ""
    requires Accounted(entries, linkBuckets, s, s.workers[w].src)
    ensures Accounted(entries, linkBuckets, Next(entries, linkBuckets, s, Store(w, Stored(path))), src)
  {
    HoldersUpdate(s.workers, w, Idle, src);
    HoldersUpdate(s.workers, w, Idle, s.workers[w].src);
  }

  lemma AccountedNext(entries: seq<Src>, linkBuckets: bool, s: State, step: Step, src: Src)
    requires Invariant(entries, linkBuckets, s) && Enabled(entries, s, step)
    requires !s.failed && !(step.Store? && step.outcome.Error?)
    ensures Accounted(entries, linkBuckets, Next(entries, linkBuckets, s, step), src)
  {
    assert Accounted(entries, linkBuckets, s, src);
    if step.Produce? {
      if entries[s.next] in s.contentMap {
      } else {
      }
    } else if step.Store? {
      assert Accounted(entries, linkBuckets, s, s.workers[step.worker].src);
      AccountedStore(entries, linkBuckets, s, step.worker, step.outcome.path, src);
    } else {
      AccountedMoves(entries, linkBuckets, s, step, src);
    }
  }

  lemma InvariantNext(entries: seq<Src>, linkBuckets: bool, s: State, step: Step, s': State)
    requires Invariant(entries, linkBuckets, s) && Enabled(entries, s, step)
    requires s' == Next(entries, linkBuckets, s, step)
    ensures Invariant(entries, linkBuckets, s')
  {
    if !s'.failed {
      forall src
        ensures Accounted(entries, linkBuckets, s', src)
      {
        AccountedNext(entries, linkBuckets, s, step, src);
      }
    }
  }

  lemma {:induction false} InvariantAlways(
    entries: seq<Src>, linkBuckets: bool, n: nat, steps: seq<Step>, states: seq<State>, i: nat)
    requires Execution(entries, linkBuckets, n, steps, states) && i < |states|
    ensures Invariant(entries, linkBuckets, states[i]) && |states[i].workers| == n
  {
    if i == 0 {
      InvariantInit(entries, linkBuckets, n);
    } else {
      InvariantAlways(entries, linkBuckets, n, steps, states, i - 1);
      var step := steps[i - 1];
      InvariantNext(entries, linkBuckets, states[i - 1], step, states[i]);
    }
  }

  ghost predicate AllGone(ws: seq<Worker>) {
    forall w :: 0 <= w < |ws| ==> ws[w].Gone?
  }

  /** Exactly the non-empty sources of the manifest are stored, each at the path the content map gives, and with
      link buckets each is counted exactly as often as it occurs. */
  ghost predicate StoredAndCounted(entries: seq<Src>, linkBuckets: bool, s: State, src: Src) {
    && (src != "" && src in entries <==> src in s.computed)
    && (src in s.computed ==> src in s.contentMap && s.contentMap[src] == s.computed[src])
    && Count(s.duplicates, src) == (if linkBuckets && src != "" then Occurrences(entries, |entries|, src) else 0)
    && (src in s.duplicates ==> src in s.contentMap)
  }

  lemma AccountedAtEnd(entries: seq<Src>, linkBuckets: bool, s: State, src: Src)
    requires Invariant(entries, linkBuckets, s) && !s.failed && |s.workers| >= 1 && AllGone(s.workers)
    ensures StoredAndCounted(entries, linkBuckets, s, src)
  {
    assert s.workers[0].Gone?;
    assert Accounted(entries, linkBuckets, s, src);
    NoHolders(s.workers, src);
    OccursIff(entries, |entries|, src);
    assert entries[..|entries|] == entries;
  }

  /** When all workers have ended without an error, in any interleaving, every source is accounted for. */
  lemma AllStoredAndCounted(
    entries: seq<Src>, linkBuckets: bool, n: nat, steps: seq<Step>, states: seq<State>, src: Src)
    requires n >= 1 && Execution(entries, linkBuckets, n, steps, states)
    requires !states[|steps|].failed && AllGone(states[|steps|].workers)
    ensures StoredAndCounted(entries, linkBuckets, states[|steps|], src)
  {
    InvariantAlways(entries, linkBuckets, n, steps, states, |steps|);
    AccountedAtEnd(entries, linkBuckets, states[|steps|], src);
  }

  /** Until an error the pool cannot get stuck before every worker has ended. */
  lemma NeverStuck(entries: seq<Src>, linkBuckets: bool, n: nat, steps: seq<Step>, states: seq<State>)
    requires n >= 1 && Execution(entries, linkBuckets, n, steps, states) && !states[|steps|].failed
    ensures AllGone(states[|steps|].workers) || exists step :: Enabled(entries, states[|steps|], step)
  {
    InvariantAlways(entries, linkBuckets, n, steps, states, |steps|);
    var s := states[|steps|];
    if w :| 0 <= w < |s.workers| && !s.workers[w].Gone? {
      var step := if s.workers[w].Holding? then Store(w, Error)
                  else if s.channel != [] then Receive(w)
                  else if s.closed then End(w)
                  else if s.sending.Some? then Send
                  else if s.next < |entries| then Produce
                  else Close;
      assert Enabled(entries, s, step);
    }
  }

  lemma {:induction false} OccursIff(entries: seq<Src>, n: nat, src: Src)
    requires n <= |entries|
    ensures Occurrences(entries, n, src) > 0 <==> src in entries[..n]
  {
    if n > 0 {
      OccursIff(entries, n - 1, src);
      assert entries[..n] == entries[..n - 1] + [entries[n - 1]];
    }
  }

  // ----- the shared variables -----

  /** What the goroutines of prepareContentAddressableSrcs share, and the regions they execute. */
  class Preparation {
    const entries: seq<Src>
    const linkBuckets: bool
    var next: nat
    var sending: Option<Src>
    var srcChan: seq<Src>
    var closed: bool
    var workers: seq<Worker>
    var contentMap: map<Src, Path>
    var duplicateSrcCount: map<Src, nat>
    var failed: bool
    ghost var computed: map<Src, Path>

    ghost function View(): State
      reads this
    {
      State(next, sending, srcChan, closed, workers, contentMap, duplicateSrcCount, computed, failed)
    }

    ghost predicate Valid()
      reads this
    {
      Invariant(entries, linkBuckets, View())
    }

    ghost predicate CanTake(step: Step)
      reads this
    {
      Valid() && Enabled(entries, View(), step)
    }

    ghost predicate Took(step: Step, before: State)
      requires Enabled(entries, before, step)
      reads this
    {
      Valid() && View() == Next(entries, linkBuckets, before, step)
    }

    constructor (entries: seq<Src>, linkBuckets: bool)
      ensures Valid() && View() == Init(WORKER_COUNT)
      ensures this.entries == entries && this.linkBuckets == linkBuckets
    {
      InvariantInit(entries, linkBuckets, WORKER_COUNT);
      this.entries, this.linkBuckets := entries, linkBuckets;
      next, sending, srcChan, closed, failed := 0, None, [], false, false;
      workers, contentMap, duplicateSrcCount, computed := seq(WORKER_COUNT, _ => Idle), map[], map[], map[];
    }

    /** `duplicateSrcCount[src] += 1`. */
    method Tally(src: Src)
      modifies this`duplicateSrcCount
      ensures duplicateSrcCount == Increment(old(duplicateSrcCount), src)
    {
      var count := if src in duplicateSrcCount then duplicateSrcCount[src] else 0;
      duplicateSrcCount := duplicateSrcCount[src := count + 1];
    }

    /** The producer with the lock: claim a new source, or count one met before. */
    method Produce()
      requires CanTake(Step.Produce)
      modifies this
      ensures Took(Step.Produce, old(View()))
    {
      ghost var before := View();
      var src := entries[next];
      next := next + 1;
      if src !in contentMap {
        contentMap := contentMap[src := ""];
        sending := Some(src);
      } else if linkBuckets && src != "" {
        Tally(src);
      }
      InvariantNext(entries, linkBuckets, before, Step.Produce, View());
    }

    method Send()
      requires CanTake(Step.Send)
      modifies this
      ensures Took(Step.Send, old(View()))
    {
      ghost var before := View();
      srcChan, sending := srcChan + [sending.value], None;
      InvariantNext(entries, linkBuckets, before, Step.Send, View());
    }

    method CloseChannel()
      requires CanTake(Close)
      modifies this
      ensures Took(Close, old(View()))
    {
      ghost var before := View();
      closed := true;
      InvariantNext(entries, linkBuckets, before, Close, View());
    }

    method Receive(w: nat)
      requires CanTake(Step.Receive(w))
      modifies this
      ensures Took(Step.Receive(w), old(View()))
    {
      ghost var before := View();
      var src := srcChan[0];
      srcChan := srcChan[1..];
      if src != "" {
        workers := workers[w := Holding(src)];
      }
      InvariantNext(entries, linkBuckets, before, Step.Receive(w), View());
    }

    /** A worker whose file operations are over: with the lock, or with an error for the error channel. */
    method Store(w: nat, outcome: Outcome)
      requires CanTake(Step.Store(w, outcome))
      modifies this
      ensures Took(Step.Store(w, outcome), old(View()))
    {
      ghost var before := View();
      match outcome {
        case Error =>
          failed := true;
          workers := workers[w := Gone];
        case Stored(hashPath) =>
          var src := workers[w].src;
          contentMap := contentMap[src := hashPath];
          computed := computed[src := hashPath];
          if linkBuckets {
            Tally(src);
          }
          workers := workers[w := Idle];
      }
      InvariantNext(entries, linkBuckets, before, Step.Store(w, outcome), View());
    }

    /** The channel is drained and closed. */
    method End(w: nat)
      requires CanTake(Step.End(w))
      modifies this
      ensures Took(Step.End(w), old(View()))
    {
      ghost var before := View();
      workers := workers[w := Gone];
      InvariantNext(entries, linkBuckets, before, Step.End(w), View());
    }
  }
}
