/**
 Concurrent callers of `valid_tokens` sharing one token store.

 Callers are cooperative tasks: between two awaits a task runs alone. A task awaits the lock,
 then possibly the refresh client, and holds the lock until it returns or raises. The store keeps
 its bundle when a load or save raises (`CodexKeyring.TokenStore.Save` for the keyring).
 */
module TokenRefresh {
  import opened Wrappers

  type Caller = nat

  /** A token bundle, as far as the manager looks at it. */
  datatype Bundle = Bundle(serial: int, expiresAt: Option<int>, hasAccount: bool)
  {
    predicate Usable() { expiresAt.Some? && hasAccount }

    /** Not in need of a refresh at `now`. */
    predicate Current(now: int, skew: int) { Usable() && expiresAt.value > now + skew }
  }

  datatype Phase =
    | Waiting
    | Refreshing(presented: Bundle)
    | Returned(tokens: Bundle)
    | Raised

  datatype Event =
    | Presented(caller: Caller, bundle: Bundle)
    | Saved(caller: Caller, previous: Bundle, renewed: Bundle)

  /** `stored` is None while nothing is saved; `log` is the order of refresh requests and saves. */
  datatype State = State(
    stored: Option<Bundle>, now: int, lock: Option<Caller>, phases: map<Caller, Phase>, log: seq<Event>)

  datatype Step =
    | Call(caller: Caller)
    | Tick(now: int)
    | LoadRaises(caller: Caller)
    | Proceed(caller: Caller)
    | RefreshRaises(caller: Caller)
    | RefreshReturns(caller: Caller, renewed: Bundle, saveRaises: bool)

  ghost predicate Enabled(s: State, step: Step)
  {
    match step
    case Call(c) => c !in s.phases
    case Tick(_) => true
    case LoadRaises(c) => c in s.phases && s.phases[c].Waiting? && s.lock.None?
    case Proceed(c) => c in s.phases && s.phases[c].Waiting? && s.lock.None?
    case RefreshRaises(c) => c in s.phases && s.phases[c].Refreshing? && s.lock == Some(c)
    case RefreshReturns(c, _, _) => c in s.phases && s.phases[c].Refreshing? && s.lock == Some(c)
  }

  function Apply(s: State, skew: int, step: Step): State
    requires Enabled(s, step)
  {
    match step
    case Call(c) => s.(phases := s.phases[c := Waiting])
    case Tick(now) => s.(now := now)
    case LoadRaises(c) => s.(phases := s.phases[c := Raised])
    case Proceed(c) =>
      if s.stored.None? || !s.stored.value.Usable() then s.(phases := s.phases[c := Raised])
      else if s.stored.value.Current(s.now, skew) then s.(phases := s.phases[c := Returned(s.stored.value)])
      else s.(lock := Some(c), phases := s.phases[c := Refreshing(s.stored.value)],
              log := s.log + [Presented(c, s.stored.value)])
    case RefreshRaises(c) => s.(lock := None, phases := s.phases[c := Raised])
    case RefreshReturns(c, renewed, saveRaises) =>
      if !renewed.Usable() || saveRaises then s.(lock := None, phases := s.phases[c := Raised])
      else s.(lock := None, stored := Some(renewed), phases := s.phases[c := Returned(renewed)],
              log := s.log + [Saved(c, s.phases[c].presented, renewed)])
  }

  /** What a caller gets that finds the lock free: an exception if there is no complete bundle, the stored bundle if it
      outlives the present time by more than the skew, and otherwise the lock and a refresh of that bundle. */
  lemma ProceedsExactly(s: State, skew: int, c: Caller)
    requires Enabled(s, Proceed(c))
    ensures var t := Apply(s, skew, Proceed(c));
            && t.stored == s.stored && t.now == s.now
            && (forall d | d != c && d in s.phases :: d in t.phases && t.phases[d] == s.phases[d])
            && (s.stored.None? || s.stored.value.expiresAt.None? || !s.stored.value.hasAccount ==>
                  t.phases[c] == Raised && t.lock == None && t.log == s.log)
            && (s.stored.Some? && s.stored.value.expiresAt.Some? && s.stored.value.hasAccount ==>
                  if s.stored.value.expiresAt.value > s.now + skew
                  then t.phases[c] == Returned(s.stored.value) && t.lock == None && t.log == s.log
                  else t.phases[c] == Refreshing(s.stored.value) && t.lock == Some(c)
                       && t.log == s.log + [Presented(c, s.stored.value)])
  {
  }

  /** A refresh that returns a complete bundle which can be saved replaces the stored one and is what the caller gets. */
  lemma RefreshesExactly(s: State, skew: int, c: Caller, renewed: Bundle, saveRaises: bool)
    requires Enabled(s, RefreshReturns(c, renewed, saveRaises))
    ensures var t := Apply(s, skew, RefreshReturns(c, renewed, saveRaises));
            && t.lock == None && t.now == s.now
            && (forall d | d != c && d in s.phases :: d in t.phases && t.phases[d] == s.phases[d])
            && if renewed.expiresAt.Some? && renewed.hasAccount && !saveRaises
               then t.stored == Some(renewed) && t.phases[c] == Returned(renewed)
                    && t.log == s.log + [Saved(c, s.phases[c].presented, renewed)]
               else t.stored == s.stored && t.phases[c] == Raised && t.log == s.log
  {
  }

  /** A run, as the states it goes through and the steps between them. */
  datatype Run = Run(states: seq<State>, steps: seq<Step>)
  {
    ghost predicate Valid(skew: int)
    {
      && |states| == |steps| + 1
      && Initial(states[0])
      && forall i | 0 <= i < |steps| :: Enabled(states[i], steps[i]) && states[i + 1] == Apply(states[i], skew, steps[i])
    }

    function Last(): State
      requires states != []
    {
      states[|states| - 1]
    }
  }

  ghost predicate Initial(s: State)
  {
    s.lock.None? && s.phases == map[] && s.log == []
  }

  /* ---------- What every reachable state keeps ---------- */

  /** Exactly the lock holder is refreshing, and it presented the bundle that is still stored. */
  ghost predicate Serialized(s: State)
  {
    && (s.lock.Some? ==> s.lock.value in s.phases && s.phases[s.lock.value].Refreshing?)
    && (forall c | c in s.phases && s.phases[c].Refreshing? ::
          s.lock == Some(c) && s.stored == Some(s.phases[c].presented))
  }

  /** The bundle stored after the events of `log`, starting from `initial`. */
  function StoredAfter(initial: Option<Bundle>, log: seq<Event>): Option<Bundle>
  {
    if log == [] then initial
    else match log[|log| - 1]
      case Saved(_, _, renewed) => Some(renewed)
      case Presented(_, _) => StoredAfter(initial, log[..|log| - 1])
  }

  /** Every refresh presents the bundle stored at that moment, and every save replaces the one presented. */
  ghost predicate Faithful(initial: Option<Bundle>, log: seq<Event>)
  {
    forall i | 0 <= i < |log| ::
      StoredAfter(initial, log[..i]) ==
      Some(match log[i] case Presented(_, b) => b case Saved(_, previous, _) => previous)
  }

  lemma {:induction false} Reachable(run: Run, skew: int, n: nat)
    requires run.Valid(skew) && n < |run.states|
    ensures Serialized(run.states[n])
    ensures Faithful(run.states[0].stored, run.states[n].log)
    ensures StoredAfter(run.states[0].stored, run.states[n].log) == run.states[n].stored
  {
    hide Serialized, Faithful, StoredAfter, Initial, Enabled, Apply;
    if n == 0 {
      StartsWell(run.states[0]);
    } else {
      Reachable(run, skew, n - 1);
      var before, step := run.states[n - 1], run.steps[n - 1];
      assert run.states[n] == Apply(before, skew, step);
      KeepsSerialized(before, skew, step);
      KeepsFaithful(before, skew, step, run.states[0].stored);
    }
  }

  lemma StartsWell(s: State)
    requires Initial(s)
    ensures Serialized(s) && Faithful(s.stored, s.log) && StoredAfter(s.stored, s.log) == s.stored
  {
  }

  lemma KeepsSerialized(s: State, skew: int, step: Step)
    requires Serialized(s) && Enabled(s, step)
    ensures Serialized(Apply(s, skew, step))
  {
  }

  lemma KeepsFaithful(s: State, skew: int, step: Step, initial: Option<Bundle>)
    requires Serialized(s) && Enabled(s, step)
    requires Faithful(initial, s.log) && StoredAfter(initial, s.log) == s.stored
    ensures Faithful(initial, Apply(s, skew, step).log)
    ensures StoredAfter(initial, Apply(s, skew, step).log) == Apply(s, skew, step).stored
  {
    var log, after := s.log, Apply(s, skew, step).log;
    assert log[..|log|] == log;
    if after != log {
      assert after[..|log|] == log;
      forall i | 0 <= i < |log| ensures after[..i] == log[..i] && after[i] == log[i] {
      }
    }
  }

  /** At most one refresh is ever in flight, and what it presented is what is stored. */
  lemma MutualExclusion(run: Run, skew: int, n: nat, c: Caller, d: Caller)
    requires run.Valid(skew) && n < |run.states|
    requires c in run.states[n].phases && run.states[n].phases[c].Refreshing?
    requires d in run.states[n].phases && run.states[n].phases[d].Refreshing?
    ensures c == d && run.states[n].stored == Some(run.states[n].phases[c].presented)
  {
    Reachable(run, skew, n);
  }

  predicate StoredAt(s: State, tokens: Bundle)
  {
    s.stored == Some(tokens) && tokens.expiresAt.Some? && tokens.hasAccount
  }

  /** Whatever a caller got was complete and stored when it got it. */
  lemma {:induction false} ReturnedWasStored(run: Run, skew: int, n: nat, c: Caller)
    requires run.Valid(skew) && n < |run.states|
    requires c in run.states[n].phases && run.states[n].phases[c].Returned?
    ensures exists m :: 0 <= m <= n && StoredAt(run.states[m], run.states[n].phases[c].tokens)
  {
    if n > 0 {
      var before, after, step := run.states[n - 1], run.states[n], run.steps[n - 1];
      assert after == Apply(before, skew, step);
      if c in before.phases && before.phases[c] == after.phases[c] {
        ReturnedWasStored(run, skew, n - 1, c);
      } else {
        assert StoredAt(after, after.phases[c].tokens);
      }
    }
  }

  /* ---------- A superseded bundle ---------- */

  lemma {:induction false} StoredSince(initial: Option<Bundle>, log: seq<Event>, i: nat, j: nat)
    requires i <= j <= |log|
    ensures StoredAfter(initial, log[..j]) == StoredAfter(initial, log[..i])
            || exists k :: i <= k < j && log[k].Saved? && StoredAfter(initial, log[..j]) == Some(log[k].renewed)
    decreases j - i
  {
    if i < j {
      assert log[..j][..j - 1] == log[..j - 1] && log[..j][j - 1] == log[j - 1];
      if log[j - 1].Presented? {
        StoredSince(initial, log, i, j - 1);
      }
    }
  }

  /** A bundle whose successor was saved is presented again only if the server issued it again in between. */
  lemma NeverPresentedAgain(run: Run, skew: int, i: nat, j: nat)
    requires run.Valid(skew)
    requires i < j < |run.Last().log|
    requires run.Last().log[i].Saved? && run.Last().log[j].Presented?
    requires run.Last().log[j].bundle == run.Last().log[i].previous
    ensures exists k :: i <= k < j && run.Last().log[k].Saved? && run.Last().log[k].renewed == run.Last().log[i].previous
  {
    hide StoredAfter, Serialized;
    var log, initial := run.Last().log, run.states[0].stored;
    Reachable(run, skew, |run.states| - 1);
    SavedIsStored(initial, log, i);
    StoredSince(initial, log, i + 1, j);
  }

  lemma SavedIsStored(initial: Option<Bundle>, log: seq<Event>, i: nat)
    requires i < |log| && log[i].Saved?
    ensures StoredAfter(initial, log[..i + 1]) == Some(log[i].renewed)
  {
    assert log[..i + 1][i] == log[i];
  }

  /* ---------- Callers sharing one stale bundle ---------- */

  /** Every saved bundle needs no refresh for the rest of the run. */
  ghost predicate StaysCurrent(run: Run, skew: int)
    requires run.states != []
  {
    forall i, n | 0 <= i < |run.Last().log| && run.Last().log[i].Saved? && 0 <= n < |run.states| ::
      run.Last().log[i].renewed.Current(run.states[n].now, skew)
  }

  /** The bundle stored at the start needs a refresh throughout the run, whatever the clock does. */
  ghost predicate StaysStale(run: Run, skew: int)
    requires run.states != []
  {
    && run.states[0].stored.Some?
    && forall n | 0 <= n < |run.states| :: !run.states[0].stored.value.Current(run.states[n].now, skew)
  }

  /** A clock that never goes back keeps a stale bundle stale. */
  lemma {:induction false} ForwardClockStaysStale(run: Run, skew: int, n: nat)
    requires run.Valid(skew) && n < |run.states|
    requires run.states[0].stored.Some? && !run.states[0].stored.value.Current(run.states[0].now, skew)
    requires forall i | 0 <= i < |run.steps| && run.steps[i].Tick? :: run.steps[i].now >= run.states[i].now
    ensures run.states[n].now >= run.states[0].now
    ensures !run.states[0].stored.value.Current(run.states[n].now, skew)
  {
    if n > 0 {
      ForwardClockStaysStale(run, skew, n - 1);
      assert run.states[n] == Apply(run.states[n - 1], skew, run.steps[n - 1]);
    }
  }

  ghost predicate NoRefreshFails(run: Run)
  {
    forall i | 0 <= i < |run.steps| ::
      !run.steps[i].RefreshRaises?
      && (run.steps[i].RefreshReturns? ==> run.steps[i].renewed.Usable() && !run.steps[i].saveRaises)
  }

  lemma {:induction false} LogGrows(run: Run, skew: int, m: nat, n: nat)
    requires run.Valid(skew) && m <= n < |run.states|
    ensures run.states[m].log <= run.states[n].log
    decreases n - m
  {
    if m < n {
      LogGrows(run, skew, m, n - 1);
      assert run.states[n] == Apply(run.states[n - 1], skew, run.steps[n - 1]);
    }
  }

  /** What the first refresh decides: none yet, one in flight, or one saved bundle every later caller gets. */
  ghost predicate OneRefresh(s: State, initial: Option<Bundle>)
  {
    match |s.log|
    case 0 => s.stored == initial && s.lock.None? && forall c | c in s.phases :: !s.phases[c].Returned?
    case 1 => s.log[0].Presented? && s.lock.Some? && forall c | c in s.phases :: !s.phases[c].Returned?
    case _ =>
      && |s.log| == 2 && s.log[0].Presented? && s.log[1].Saved? && s.lock.None?
      && s.stored == Some(s.log[1].renewed)
      && forall c | c in s.phases && s.phases[c].Returned? :: s.phases[c].tokens == s.log[1].renewed
  }

  /** Callers that start on one stale bundle cause one refresh between them, and all get its result. */
  lemma {:induction false} SharedStaleBundle(run: Run, skew: int, n: nat)
    requires run.Valid(skew) && n < |run.states|
    requires StaysStale(run, skew) && StaysCurrent(run, skew) && NoRefreshFails(run)
    ensures OneRefresh(run.states[n], run.states[0].stored)
  {
    hide Serialized, Apply, Enabled, Bundle.Current, Bundle.Usable;
    if n > 0 {
      SharedStaleBundle(run, skew, n - 1);
      Reachable(run, skew, n - 1);
      var before, step := run.states[n - 1], run.steps[n - 1];
      assert run.states[n] == Apply(before, skew, step);
      LogGrows(run, skew, n - 1, |run.states| - 1);
      if |before.log| == 2 {
        assert run.Last().log[1] == before.log[1];
        assert before.log[1].renewed.Current(before.now, skew);
      }
      OneRefreshKept(before, skew, step, run.states[0].stored.value);
    } else {
      NothingRefreshed(run.states[0]);
    }
  }

  lemma NothingRefreshed(s: State)
    requires Initial(s)
    ensures OneRefresh(s, s.stored)
  {
  }

  lemma OneRefreshKept(s: State, skew: int, step: Step, initial: Bundle)
    requires Serialized(s) && Enabled(s, step) && OneRefresh(s, Some(initial)) && !initial.Current(s.now, skew)
    requires |s.log| == 2 ==> s.log[1].Saved? && s.log[1].renewed.Current(s.now, skew)
    requires !step.RefreshRaises? && (step.RefreshReturns? ==> step.renewed.Usable() && !step.saveRaises)
    ensures OneRefresh(Apply(s, skew, step), Some(initial))
  {
  }

  /** Every caller that returns got the one refreshed bundle, after exactly one refresh. */
  lemma ExactlyOneRefresh(run: Run, skew: int, c: Caller)
    requires run.Valid(skew)
    requires StaysStale(run, skew) && StaysCurrent(run, skew) && NoRefreshFails(run)
    requires c in run.Last().phases && run.Last().phases[c].Returned?
    ensures |run.Last().log| == 2
    ensures run.Last().log[0].Presented? && Some(run.Last().log[0].bundle) == run.states[0].stored
    ensures run.Last().log[1].Saved? && run.Last().log[1].renewed == run.Last().phases[c].tokens
    ensures run.Last().stored == Some(run.Last().phases[c].tokens)
  {
    SharedStaleBundle(run, skew, |run.states| - 1);
    Reachable(run, skew, |run.states| - 1);
    assert run.Last().log[..0] == [];
  }
}
