/** The activity's seconds counter. Starting the timer builds a new callback
    (a "runnable") and posts it to the main thread's handler with a one
    second delay; each time a posted callback runs it adds one to the count
    and posts the timer's *current* runnable field again; stopping removes every
    pending post of the current runnable. Delays are not modelled: a fire is
    an event that may happen to any pending post, one at a time. */
module DessertTimer {
  import opened Optional

  /** `runnable` numbers the callbacks: the k-th start creates runnable k, and
      0 stands for the null field before the first start. `pending` holds the
      posts waiting in the handler's queue, by runnable. */
  datatype Timer = Timer(secondsCount: int, runnable: nat, pending: multiset<nat>)

  /** Nothing is waiting to fire. */
  predicate Stopped(t: Timer)
  {
    t.pending == multiset{}
  }

  /** Exactly one fire is waiting, and it is a post of the current runnable. */
  predicate Running(t: Timer)
  {
    0 < t.runnable && t.pending == multiset{t.runnable}
  }

  /** Every pending post is of a runnable that some start has created. */
  predicate PostsAreCreated(t: Timer)
  {
    forall g :: g in t.pending ==> 0 < g <= t.runnable
  }

  /** A freshly constructed timer: zero seconds, no runnable, nothing posted. */
  function New(): (t: Timer)
    ensures t.secondsCount == 0
    ensures Stopped(t) && !Running(t)
    ensures PostsAreCreated(t)
  {
    Timer(0, 0, multiset{})
  }

  /** The count held by the timer; reading it changes nothing. */
  function GetSecondsCount(t: Timer): (n: int)
    ensures SetSecondsCount(t, n) == t
  {
    t.secondsCount
  }

  /** Overwrite the count; the callbacks and posts are left as they were. */
  function SetSecondsCount(t: Timer, n: int): (r: Timer)
    ensures r.secondsCount == n
    ensures r.runnable == t.runnable && r.pending == t.pending
  {
    t.(secondsCount := n)
  }

  /** Creates a new runnable and posts it once. The count is untouched. Posts
      of earlier runnables stay in the queue. */
  function StartTimer(t: Timer): (r: Timer)
    ensures r.secondsCount == t.secondsCount
    ensures PostsAreCreated(t) ==> r.runnable !in t.pending && PostsAreCreated(r)
    ensures r.pending == t.pending + multiset{r.runnable}
    ensures Stopped(t) ==> Running(r)
  {
    var created := t.runnable + 1;
    Timer(t.secondsCount, created, t.pending + multiset{created})
  }

  /** One pending post `g` runs: the count goes up by one, the post is
      consumed and the current runnable is posted in its place. */
  function Fire(t: Timer, g: nat): (r: Timer)
    requires g in t.pending
    ensures r.secondsCount == t.secondsCount + 1
    ensures r.runnable == t.runnable
    ensures |r.pending| == |t.pending|
    ensures r.pending[t.runnable] == t.pending[t.runnable] + (if g == t.runnable then 0 else 1)
    ensures forall h :: h != t.runnable ==> r.pending[h] == (if h == g then t.pending[h] - 1 else t.pending[h])
    ensures PostsAreCreated(t) ==> PostsAreCreated(r)
    ensures Running(t) ==> r == t.(secondsCount := t.secondsCount + 1)
  {
    Timer(t.secondsCount + 1, t.runnable, t.pending - multiset{g} + multiset{t.runnable})
  }

  /** Removes every pending post of the current runnable; posts of older
      runnables are not touched. Before the first start the field is null and
      nothing is removed. */
  function StopTimer(t: Timer): (r: Timer)
    ensures r.secondsCount == t.secondsCount && r.runnable == t.runnable
    ensures 0 < t.runnable ==> t.runnable !in r.pending
    ensures forall g :: g != t.runnable ==> r.pending[g] == t.pending[g]
    ensures PostsAreCreated(t) ==> PostsAreCreated(r)
    ensures Running(t) || Stopped(t) ==> Stopped(r)
  {
    if t.runnable == 0 then t else t.(pending := t.pending[t.runnable := 0])
  }

  /** Set then get hands back what was set. */
  lemma SetThenGet(t: Timer, n: int)
    ensures GetSecondsCount(SetSecondsCount(t, n)) == n
  {
  }

  /** Stopping twice is the same as stopping once. */
  lemma StopIsIdempotent(t: Timer)
    ensures StopTimer(StopTimer(t)) == StopTimer(t)
  {
  }

  /** Starting twice without a stop in between replaces the runnable field,
      so the following stop only removes the second post: the first one is
      still pending, and when it fires it counts a second and posts the
      newest runnable, which keeps the timer counting after the stop. */
  lemma DoubleStartSurvivesStop(t: Timer)
    requires Stopped(t)
    ensures var s := StopTimer(StartTimer(StartTimer(t)));
            && s.pending == multiset{t.runnable + 1}
            && !Stopped(s)
            && Fire(s, t.runnable + 1).pending == multiset{t.runnable + 2}
            && Fire(s, t.runnable + 1).secondsCount == t.secondsCount + 1
  {
    var s1 := StartTimer(t);
    var s2 := StartTimer(s1);
    assert s2.pending == multiset{t.runnable + 1, t.runnable + 2};
    var s := StopTimer(s2);
    assert s.pending == multiset{t.runnable + 1};
  }

  /** Lifecycle signals and fires as they reach the timer. */
  datatype Event = OnStart | OnStop | Tick(g: nat)

  /** Applies a sequence of events; `None` when a tick names a post that is
      not in the queue, which cannot happen. */
  function Run(t: Timer, evs: seq<Event>): Option<Timer>
    decreases |evs|
  {
    if |evs| == 0 then Some(t)
    else match evs[0]
      case OnStart => Run(StartTimer(t), evs[1..])
      case OnStop => Run(StopTimer(t), evs[1..])
      case Tick(g) => if g in t.pending then Run(Fire(t, g), evs[1..]) else None
  }

  /** Number of ticks in a sequence of events. */
  function Ticks(evs: seq<Event>): nat
  {
    if |evs| == 0 then 0 else (if evs[0].Tick? then 1 else 0) + Ticks(evs[1..])
  }

  /** The count grows by exactly one per tick and by nothing else. */
  lemma {:induction false} CountIsTicks(t: Timer, evs: seq<Event>)
    requires Run(t, evs).Some?
    ensures Run(t, evs).value.secondsCount == t.secondsCount + Ticks(evs)
    decreases |evs|
  {
    if |evs| > 0 {
      match evs[0]
      case OnStart => CountIsTicks(StartTimer(t), evs[1..]);
      case OnStop => CountIsTicks(StopTimer(t), evs[1..]);
      case Tick(g) => CountIsTicks(Fire(t, g), evs[1..]);
    }
  }

  /** A stopped timer that is not started again cannot tick, so its count stays put. */
  lemma {:induction false} StoppedStaysStill(t: Timer, evs: seq<Event>)
    requires Stopped(t)
    requires forall k :: 0 <= k < |evs| ==> evs[k] != OnStart
    ensures Run(t, evs).Some? ==> Run(t, evs).value == t
    decreases |evs|
  {
    if |evs| > 0 {
      assert evs[0] != OnStart;
      if evs[0] == OnStop {
        StoppedStaysStill(StopTimer(t), evs[1..]);
      }
    }
  }

  /** Lifecycle order: ON_START only while stopped, ON_STOP only while running. */
  predicate Alternates(running: bool, evs: seq<Event>)
    decreases |evs|
  {
    |evs| == 0 ||
    match evs[0]
    case OnStart => !running && Alternates(true, evs[1..])
    case OnStop => running && Alternates(false, evs[1..])
    case Tick(_) => Alternates(running, evs[1..])
  }

  /** Whether the last lifecycle signal in `evs` was a start; `running` when there is none. */
  function StartedLast(running: bool, evs: seq<Event>): bool
    decreases |evs|
  {
    if |evs| == 0 then running
    else StartedLast(if evs[0].OnStart? then true else if evs[0].OnStop? then false else running, evs[1..])
  }

  /** Driven in lifecycle order, the timer is always either stopped or has
      exactly one pending fire, and it is running exactly when the last
      signal was a start: every interval brings at most one tick, never a
      burst. */
  lemma {:induction false} AlternatingKeepsOnePost(t: Timer, evs: seq<Event>)
    requires Running(t) || Stopped(t)
    requires Alternates(Running(t), evs)
    requires Run(t, evs).Some?
    ensures Running(Run(t, evs).value) || Stopped(Run(t, evs).value)
    ensures Running(Run(t, evs).value) <==> StartedLast(Running(t), evs)
    decreases |evs|
  {
    if |evs| > 0 {
      match evs[0]
      case OnStart => AlternatingKeepsOnePost(StartTimer(t), evs[1..]);
      case OnStop => AlternatingKeepsOnePost(StopTimer(t), evs[1..]);
      case Tick(g) => AlternatingKeepsOnePost(Fire(t, g), evs[1..]);
    }
  }
}
