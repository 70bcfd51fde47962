/** The exclusion rule of one recipient and the stored functions on it. */
module ExclusionRules {
  import opened Options

  type Id = nat
  type Time = nat
  type IdempotencyKey = nat

  /** A prepared change. Its preparation time is also its effective time;
      history up to the cutoff is to be purged. */
  datatype Transition = Transition(id: Id, excluded: bool, at: Time, cutoff: Option<Time>)

  datatype Pending = Pending(transition: Transition, key: IdempotencyKey)

  /** `visible`: the connection is not being deleted; `active`: its account is active. */
  datatype Rule = Rule(
    excluded: bool, effectiveAt: Option<Time>, cutoff: Option<Time>, last: Option<Id>,
    pending: Option<Pending>, visible: bool, active: bool)

  datatype Prepared =
    | NotAccessible
    | Replayed(done: Transition)
    | Fresh(transition: Transition)
    | Conflict
    | Unchanged(excluded: bool)

  /** SQL's GREATEST ignores nulls. */
  function Greatest(a: Option<Time>, b: Option<Time>): Option<Time> {
    if a.None? then b else if b.None? then a else if a.value <= b.value then b else a
  }

  /** `prepare_whatsapp_recipient_exclusion`; `bound` is the acknowledged
      transition already recorded under the key, `newId` the id to give out. */
  function Prepare(rule: Rule, bound: Option<Transition>, newId: Id, now: Time,
                   key: IdempotencyKey, excluded: bool, expected: bool): (Rule, Prepared) {
    if !rule.active || !rule.visible then (rule, NotAccessible)
    else if bound.Some? then (rule, Replayed(bound.value))
    else if rule.pending.Some? then
      (rule, if rule.pending.value.key == key then Fresh(rule.pending.value.transition) else Conflict)
    else if rule.excluded != expected then (rule, Conflict)
    else if rule.excluded == excluded then (rule, Unchanged(excluded))
    else
      var cutoff := if excluded then Greatest(rule.cutoff, Some(now)) else rule.cutoff;
      var transition := Transition(newId, excluded, now, cutoff);
      (rule.(pending := Some(Pending(transition, key))), Fresh(transition))
  }

  function Adopt(rule: Rule, t: Transition): Rule {
    rule.(excluded := t.excluded, effectiveAt := Some(t.at), last := Some(t.id),
          cutoff := Greatest(rule.cutoff, t.cutoff), pending := None)
  }

  predicate Finalizes(rule: Rule, id: Id) {
    rule.active && rule.visible && rule.pending.Some? && rule.pending.value.transition.id == id
  }

  /** `finalize_whatsapp_recipient_exclusion`; None when it returns no row. */
  function Finalize(rule: Rule, id: Id): (Rule, Option<bool>) {
    if Finalizes(rule, id) then (Adopt(rule, rule.pending.value.transition), Some(rule.pending.value.transition.excluded))
    else if rule.active && rule.visible && rule.last == Some(id) then (rule, Some(rule.excluded))
    else (rule, None)
  }

  predicate NotNewer(rule: Rule, t: Time) {
    rule.effectiveAt.None? || rule.effectiveAt.value <= t
  }

  /** `replay_whatsapp_recipient_exclusion`: the later effective time and the
      later cutoff win, and whatever is pending is dropped. */
  function Replay(rule: Rule, t: Transition): Rule {
    if NotNewer(rule, t.at) then Adopt(rule, t)
    else rule.(cutoff := Greatest(rule.cutoff, t.cutoff), pending := None)
  }

  // ----- replaying a journal -----

  function ReplayAll(rule: Rule, ts: seq<Transition>): Rule
    decreases |ts|
  {
    if ts == [] then rule else ReplayAll(Replay(rule, ts[0]), ts[1..])
  }

  function GreatestCutoff(ts: seq<Transition>): Option<Time> {
    if ts == [] then None else Greatest(ts[0].cutoff, GreatestCutoff(ts[1..]))
  }

  /** `readTransitions` returns them oldest first. */
  ghost predicate OldestFirst(ts: seq<Transition>) {
    forall i, j :: 0 <= i < j < |ts| ==> ts[i].at <= ts[j].at
  }

  /** Whatever snapshot is restored, replaying the journal ends with its newest
      transition and with the greatest purge cutoff. */
  lemma {:induction false} ReplayEndsWithNewest(rule: Rule, ts: seq<Transition>)
    requires OldestFirst(ts) && ts != [] && NotNewer(rule, ts[|ts| - 1].at)
    ensures var newest := ts[|ts| - 1];
            ReplayAll(rule, ts) ==
            rule.(excluded := newest.excluded, effectiveAt := Some(newest.at), last := Some(newest.id),
                  cutoff := Greatest(rule.cutoff, GreatestCutoff(ts)), pending := None)
    decreases |ts|
  {
    var after := Replay(rule, ts[0]);
    if |ts| > 1 {
      assert OldestFirst(ts[1..]) by {
        assert forall i :: 0 <= i < |ts| - 1 ==> ts[1..][i] == ts[i + 1];
      }
      assert ts[0].at <= ts[|ts| - 1].at;
      ReplayEndsWithNewest(after, ts[1..]);
    } else {
      assert ReplayAll(after, ts[1..]) == after;
      assert GreatestCutoff(ts[1..]) == None;
    }
  }

  lemma {:induction false} CutoffIsCovered(ts: seq<Transition>, i: nat)
    requires i < |ts|
    ensures Greatest(GreatestCutoff(ts), ts[i].cutoff) == GreatestCutoff(ts)
  {
    if i > 0 {
      assert ts[i] == ts[1..][i - 1];
      CutoffIsCovered(ts[1..], i - 1);
    }
  }

  /** Replaying twice changes nothing, and two snapshots no newer than the
      journal end up saying the same. */
  lemma ReplayForgetsTheSnapshot(first: Rule, second: Rule, ts: seq<Transition>)
    requires OldestFirst(ts) && ts != []
    requires NotNewer(first, ts[|ts| - 1].at) && NotNewer(second, ts[|ts| - 1].at)
    requires Greatest(first.cutoff, GreatestCutoff(ts)) == GreatestCutoff(ts)
    requires Greatest(second.cutoff, GreatestCutoff(ts)) == GreatestCutoff(ts)
    ensures ReplayAll(ReplayAll(first, ts), ts) == ReplayAll(first, ts)
    ensures ReplayAll(first, ts).(visible := second.visible, active := second.active) == ReplayAll(second, ts)
  {
    ReplayEndsWithNewest(first, ts);
    ReplayEndsWithNewest(second, ts);
    ReplayEndsWithNewest(ReplayAll(first, ts), ts);
  }
}
