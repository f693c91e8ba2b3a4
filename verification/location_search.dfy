/** The `useLocationSearch` hook (src/hooks/useLocationSearch.ts) as a state
    machine. The timer, the abort controllers and the resolution of the
    search request become explicit events; a request is named by its
    token, its index in the log of issued queries. */
module LocationSearch {
  import opened Wrappers
  import opened Text
  import opened Types

  datatype SearchState = SearchState(
    query: string,
    locations: seq<Location>,
    loading: bool,
    error: Option<string>,
    /** The armed debounce timer and the query it will search. */
    timer: Option<string>,
    /** The token of the controller the ref holds. */
    controller: Option<nat>,
    /** Tokens whose controller has been aborted. */
    aborted: set<nat>,
    /** Tokens whose request has not resolved yet. */
    pending: set<nat>,
    /** Every query handed to the search service, in order. */
    issued: seq<string>)

  datatype Event =
    | SetQuery(q: string)
    /** The debounce timer fires. */
    | TimerFire
    /** The request `token` resolves with results or rejects with a message. */
    | Resolve(token: nat, outcome: Result<seq<Location>, string>)
    | ClearResults

  const FailedMessage: string := "Failed to search locations"

  /** After the first render: the mount effect arms the timer for "". */
  function Init(): (s: SearchState)
    ensures s.query == "" && s.locations == [] && !s.loading && s.error.None?
    ensures s.timer == Some("") && s.issued == []
  {
    SearchState("", [], false, None, Some(""), None, {}, {}, [])
  }

  /** `abortControllerRef.current?.abort()` */
  function AbortCurrent(s: SearchState): (r: SearchState)
    ensures s.controller.Some? ==> r.aborted == s.aborted + {s.controller.value}
    ensures s.controller.None? ==> r.aborted == s.aborted
    ensures r == s.(aborted := r.aborted)
  {
    match s.controller
    case None => s
    case Some(t) => s.(aborted := s.aborted + {t})
  }

  /** `performSearch(q)`: abort the previous request; for a blank query
      clear the list and stop loading without a request; otherwise issue
      one under a fresh controller. */
  function PerformSearch(s: SearchState, q: string): (r: SearchState)
    ensures Blank(q) ==> r.issued == s.issued && r.locations == [] && !r.loading && r.controller == s.controller
    ensures !Blank(q) ==>
      r.issued == s.issued + [q] && r.loading && r.error.None?
      && r.controller == Some(|s.issued|) && r.pending == s.pending + {|s.issued|}
    ensures s.controller.Some? ==> s.controller.value in r.aborted
    ensures r.query == s.query && r.timer == s.timer
  {
    var a := AbortCurrent(s);
    TrimEmptyIffBlank(q);
    if Trim(q) == [] then a.(locations := [], loading := false)
    else
      var t := |s.issued|;
      a.(controller := Some(t), pending := a.pending + {t}, issued := a.issued + [q],
         loading := true, error := None)
  }

  function Step(s: SearchState, e: Event): SearchState {
    match e
    case SetQuery(q) =>
      // React skips the render and the effect when the value is unchanged;
      // otherwise the effect's cleanup clears the old timer and arms one.
      if q == s.query then s else s.(query := q, timer := Some(q))
    case TimerFire =>
      if s.timer.None? then s else PerformSearch(s.(timer := None), s.timer.value)
    case Resolve(t, outcome) =>
      if t !in s.pending then s
      else
        var s1 := s.(pending := s.pending - {t});
        if t in s.aborted then s1
        else (match outcome
          case Ok(results) => s1.(locations := results, loading := false)
          case Err(message) => s1.(error := Some(message), loading := false))
    case ClearResults =>
      var s1 := AbortCurrent(s).(locations := [], error := None);
      if s.query == "" then s1 else s1.(query := "", timer := Some(""))
  }

  function Run(s: SearchState, events: seq<Event>): SearchState {
    if events == [] then s else Step(Run(s, events[..|events| - 1]), events[|events| - 1])
  }

  /** The hook's invariant: an armed timer always carries the current
      query, every pending request was issued, the ref holds the latest
      request, and every pending request but that one is aborted. */
  predicate Inv(s: SearchState) {
    (s.timer.Some? ==> s.timer.value == s.query)
    && (forall t :: t in s.pending ==> t < |s.issued|)
    && (s.controller.Some? ==> s.controller.value + 1 == |s.issued|)
    && (forall t :: t in s.pending && s.controller != Some(t) ==> t in s.aborted)
  }

  lemma InitInv()
    ensures Inv(Init())
  {
  }

  lemma StepInv(s: SearchState, e: Event)
    requires Inv(s)
    ensures Inv(Step(s, e))
  {
    match e
    case SetQuery(q) =>
    case TimerFire => TimerFireInv(s);
    case Resolve(t, outcome) => ResolveInv(s, t, outcome);
    case ClearResults => ClearInv(s);
  }

  lemma TimerFireInv(s: SearchState)
    requires Inv(s)
    ensures Inv(Step(s, TimerFire))
  {
    if s.timer.Some? {
      var s0 := s.(timer := None);
      var r := PerformSearch(s0, s.timer.value);
      assert r == Step(s, TimerFire);
      assert r.timer.None?;
      assert forall t :: t in r.pending ==> t < |r.issued|;
      assert forall t :: t in r.pending && r.controller != Some(t) ==> t in r.aborted;
    }
  }

  lemma ResolveInv(s: SearchState, t: nat, outcome: Result<seq<Location>, string>)
    requires Inv(s)
    ensures Inv(Step(s, Resolve(t, outcome)))
  {
  }

  lemma ClearInv(s: SearchState)
    requires Inv(s)
    ensures Inv(Step(s, ClearResults))
  {
  }

  lemma {:induction false} RunInv(s: SearchState, events: seq<Event>)
    requires Inv(s)
    ensures Inv(Run(s, events))
  {
    if events != [] {
      RunInv(s, events[..|events| - 1]);
      StepInv(Run(s, events[..|events| - 1]), events[|events| - 1]);
    }
  }

  /** Only the most recently issued request can write results, errors or
      the loading flag: a resolution that changes any of them belongs to
      the controller the ref holds, and that is the last token issued. */
  lemma LatestWins(s: SearchState, t: nat, outcome: Result<seq<Location>, string>)
    requires Inv(s)
    requires var r := Step(s, Resolve(t, outcome));
      r.locations != s.locations || r.error != s.error || r.loading != s.loading
    ensures s.controller == Some(t) && t == |s.issued| - 1 && t !in s.aborted
  {
  }

  /** An aborted request writes nothing the component shows, not even
      `loading`. */
  lemma AbortedWritesNothing(s: SearchState, t: nat, outcome: Result<seq<Location>, string>)
    requires t in s.aborted
    ensures var r := Step(s, Resolve(t, outcome));
      r.locations == s.locations && r.error == s.error && r.loading == s.loading && r.query == s.query
  {
  }

  /** A live success shows exactly the returned list and stops loading. */
  lemma LiveSuccess(s: SearchState, t: nat, results: seq<Location>)
    requires t in s.pending && t !in s.aborted
    ensures var r := Step(s, Resolve(t, Ok(results)));
      r.locations == results && !r.loading && r.error == s.error
  {
  }

  /** `clearResults` empties list, query and error and aborts the request
      in flight, so nothing pending can write afterwards. */
  lemma ClearAbortsAll(s: SearchState)
    requires Inv(s)
    ensures var r := Step(s, ClearResults);
      r.locations == [] && r.query == "" && r.error.None?
      && forall t :: t in r.pending ==> t in r.aborted
  {
  }

  /** A burst of query changes. */
  function Typing(qs: seq<string>): (events: seq<Event>)
    ensures |events| == |qs|
  {
    if qs == [] then [] else Typing(qs[..|qs| - 1]) + [SetQuery(qs[|qs| - 1])]
  }

  /** Typing issues no request and leaves at most the timer for the last
      query armed; when the last query differs from the one before the
      burst, that timer is armed. */
  lemma {:induction false} TypingArmsLast(s: SearchState, qs: seq<string>)
    requires Inv(s) && qs != []
    ensures var r := Run(s, Typing(qs));
      r.query == qs[|qs| - 1] && r.issued == s.issued
      && (r.timer.None? || r.timer == Some(qs[|qs| - 1]))
      && (qs[|qs| - 1] != s.query ==> r.timer == Some(qs[|qs| - 1]))
  {
    var events := Typing(qs);
    var last := qs[|qs| - 1];
    assert events[..|events| - 1] == Typing(qs[..|qs| - 1]);
    RunInv(s, events);
    if |qs| > 1 {
      var p := qs[..|qs| - 1];
      TypingArmsLast(s, p);
      assert p[|p| - 1] == Run(s, Typing(p)).query;
    } else {
      assert Run(s, events[..|events| - 1]) == s;
    }
  }

  /** Debounce: when the timer fires after a burst, at most one request is
      issued, and it is for the last query of the burst; a burst ending on
      a new non-blank query issues exactly that one, and one ending on a
      blank query issues none. */
  lemma DebounceLastQueryWins(s: SearchState, qs: seq<string>)
    requires Inv(s) && qs != []
    ensures var r := Run(s, Typing(qs) + [TimerFire]);
      r.issued == s.issued || r.issued == s.issued + [qs[|qs| - 1]]
    ensures var r := Run(s, Typing(qs) + [TimerFire]);
      qs[|qs| - 1] != s.query && !Blank(qs[|qs| - 1]) ==> r.issued == s.issued + [qs[|qs| - 1]]
    ensures var r := Run(s, Typing(qs) + [TimerFire]);
      Blank(qs[|qs| - 1]) ==> r.issued == s.issued
  {
    var events := Typing(qs) + [TimerFire];
    assert events[..|events| - 1] == Typing(qs);
    TypingArmsLast(s, qs);
  }
}
