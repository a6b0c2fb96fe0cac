/**
 The decision procedure of `CoCoContextPolicy`: given the domain and the
 tracker, predict the mapped CoCo action right after the bot listened,
 predict `action_listen` right after this policy ran the mapped action, and
 predict nothing otherwise. A prediction is a vector over the domain's
 actions holding 0.0 everywhere and at most one 1.0.
 */
module ContextPolicy {
  import opened RasaHost

  /** The class name the policy compares recorded policy names with. */
  const POLICY_CLASS_NAME: string := "CoCoContextPolicy"

  /** What Python raises on the way to a prediction. */
  datatype PolicyError =
    | NoActionExecutedEvent   // `None.action_name`: the log holds no ActionExecuted
    | ActionNameMismatch      // the `assert` on the last ActionExecuted fails
    | ListenActionUnknown     // `prediction[None] = 1`: action_listen is not in the domain

  /** A returned prediction with the "unknown action" warning flag, or the
      error raised instead. */
  datatype Outcome = Returned(prediction: seq<real>, warned: bool) | Raised(error: PolicyError)

  /** `[0.0] * n` */
  function Zeros(n: nat): seq<real>
  {
    seq(n, _ => 0.0)
  }

  /** The recorded policy name says that this policy predicted the action:
      it is truthy and ends with the policy's class name. */
  predicate ChosenByThisPolicy(policy: Option<string>)
  {
    TruthyName(policy) && EndsWith(policy.value, POLICY_CLASS_NAME)
  }

  /** The specification of `predict_action_probabilities`. */
  function Predict(domain: Domain, tracker: PolicyTracker): Outcome
  {
    var zeros := Zeros(domain.NumActions());
    var active := tracker.activeFormName;
    if tracker.latestActionName == Some(ACTION_LISTEN_NAME) then
      if !TruthyName(active) then Returned(zeros, false)
      else match IndexForAction(domain, active.value)
        case None => Returned(zeros, true)
        case Some(i) => Returned(zeros[i := 1.0], false)
    else if tracker.latestActionName == active && active.Some? then
      match tracker.lastActionExecuted
      case None => Raised(NoActionExecutedEvent)
      case Some(latest) =>
        if latest.actionName != active.value then Raised(ActionNameMismatch)
        else if !ChosenByThisPolicy(latest.policy) then Returned(zeros, false)
        else match IndexForAction(domain, ACTION_LISTEN_NAME)
          case None => Raised(ListenActionUnknown)
          case Some(i) => Returned(zeros[i := 1.0], false)
    else Returned(zeros, false)
  }

  /** The policy's prediction step: allocate a zero vector over the domain's
      actions and set at most one entry to 1.0. */
  method PredictActionProbabilities(domain: Domain, tracker: PolicyTracker) returns (outcome: Outcome)
    ensures outcome == Predict(domain, tracker)
  {
    var prediction := new real[domain.NumActions()](_ => 0.0);
    var active := tracker.activeFormName;
    var warned := false;
    if tracker.latestActionName == Some(ACTION_LISTEN_NAME) {
      if TruthyName(active) {
        var idx := IndexForAction(domain, active.value);
        if idx.None? {
          warned := true;
        } else {
          prediction[idx.value] := 1.0;
        }
      }
    } else if tracker.latestActionName == active && active.Some? {
      if tracker.lastActionExecuted.None? {
        return Raised(NoActionExecutedEvent);
      }
      var latest := tracker.lastActionExecuted.value;
      if latest.actionName != active.value {
        return Raised(ActionNameMismatch);
      }
      if ChosenByThisPolicy(latest.policy) {
        var idx := IndexForAction(domain, ACTION_LISTEN_NAME);
        if idx.None? {
          return Raised(ListenActionUnknown);
        }
        prediction[idx.value] := 1.0;
      }
    }
    outcome := Returned(prediction[..], warned);
  }

  /** Every entry is 0.0 or 1.0, and at most one is 1.0. */
  predicate IsBinaryAtMostOneHot(p: seq<real>)
  {
    && (forall k :: 0 <= k < |p| ==> p[k] == 0.0 || p[k] == 1.0)
    && (forall j, k :: 0 <= j < |p| && 0 <= k < |p| && p[j] == 1.0 && p[k] == 1.0 ==> j == k)
  }

  predicate AllZero(p: seq<real>)
  {
    forall k :: 0 <= k < |p| ==> p[k] == 0.0
  }

  /** `p` is the one-hot vector over `names` for the first occurrence of `name`. */
  predicate OneHotAtFirst(p: seq<real>, names: seq<string>, name: string)
  {
    |p| == |names| &&
    forall k :: 0 <= k < |p| ==> p[k] == (if IsFirstIndex(names, k, name) then 1.0 else 0.0)
  }

  /** Whatever the inputs, a returned prediction has one entry per domain
      action, each 0.0 or 1.0, with at most one 1.0. */
  lemma PredictionShape(domain: Domain, tracker: PolicyTracker)
    ensures var o := Predict(domain, tracker);
      o.Returned? ==> |o.prediction| == domain.NumActions() && IsBinaryAtMostOneHot(o.prediction)
  {
  }

  /** Right after listening, with a truthy active form the domain knows, the
      policy predicts that action and nothing else. */
  lemma ListenPredictsActiveForm(domain: Domain, tracker: PolicyTracker)
    requires tracker.latestActionName == Some(ACTION_LISTEN_NAME)
    requires TruthyName(tracker.activeFormName)
    requires tracker.activeFormName.value in domain.actionNames
    ensures var o := Predict(domain, tracker);
      o.Returned? && !o.warned && OneHotAtFirst(o.prediction, domain.actionNames, tracker.activeFormName.value)
  {
  }

  /** Right after listening, with no active form (None or ""), the policy
      predicts nothing and does not warn. */
  lemma ListenWithoutActiveForm(domain: Domain, tracker: PolicyTracker)
    requires tracker.latestActionName == Some(ACTION_LISTEN_NAME)
    requires !TruthyName(tracker.activeFormName)
    ensures var o := Predict(domain, tracker);
      o.Returned? && !o.warned && |o.prediction| == domain.NumActions() && AllZero(o.prediction)
  {
  }

  /** Right after listening, an active form the domain does not know gives
      the warning and predicts nothing. */
  lemma ListenWithUnknownActiveForm(domain: Domain, tracker: PolicyTracker)
    requires tracker.latestActionName == Some(ACTION_LISTEN_NAME)
    requires TruthyName(tracker.activeFormName)
    requires tracker.activeFormName.value !in domain.actionNames
    ensures var o := Predict(domain, tracker);
      o.Returned? && o.warned && |o.prediction| == domain.NumActions() && AllZero(o.prediction)
  {
  }

  /** The warning is given exactly when the bot just listened and the
      active form names an action the domain does not know. */
  lemma WarnsExactlyOnUnknownAction(domain: Domain, tracker: PolicyTracker)
    ensures var o := Predict(domain, tracker);
      (o.Returned? && o.warned) <==>
        (tracker.latestActionName == Some(ACTION_LISTEN_NAME) && TruthyName(tracker.activeFormName)
         && tracker.activeFormName.value !in domain.actionNames)
  {
  }

  /** The listen check comes first: right after listening, the prediction
      never raises and does not depend on the logged ActionExecuted event,
      even when the active form is `action_listen` itself. */
  lemma ListenTakesPrecedence(domain: Domain, tracker: PolicyTracker, other: Option<ActionExecuted>)
    requires tracker.latestActionName == Some(ACTION_LISTEN_NAME)
    ensures Predict(domain, tracker).Returned?
    ensures Predict(domain, tracker) == Predict(domain, tracker.(lastActionExecuted := other))
  {
  }

  /** Right after the mapped action ran, when this policy predicted it, the
      policy predicts `action_listen` and nothing else. */
  lemma MappedActionReturnsToListen(domain: Domain, tracker: PolicyTracker, policy: string)
    requires tracker.latestActionName != Some(ACTION_LISTEN_NAME)
    requires tracker.activeFormName.Some? && tracker.latestActionName == tracker.activeFormName
    requires tracker.lastActionExecuted == Some(ActionExecuted(tracker.activeFormName.value, Some(policy)))
    requires EndsWith(policy, POLICY_CLASS_NAME)
    requires ACTION_LISTEN_NAME in domain.actionNames
    ensures var o := Predict(domain, tracker);
      o.Returned? && !o.warned && OneHotAtFirst(o.prediction, domain.actionNames, ACTION_LISTEN_NAME)
  {
  }

  /** Right after the mapped action ran, when another policy (or no recorded
      policy) predicted it, the policy predicts nothing. */
  lemma MappedActionOfOtherPolicy(domain: Domain, tracker: PolicyTracker, policy: Option<string>)
    requires tracker.latestActionName != Some(ACTION_LISTEN_NAME)
    requires tracker.activeFormName.Some? && tracker.latestActionName == tracker.activeFormName
    requires tracker.lastActionExecuted == Some(ActionExecuted(tracker.activeFormName.value, policy))
    requires policy.None? || !EndsWith(policy.value, POLICY_CLASS_NAME)
    ensures var o := Predict(domain, tracker);
      o.Returned? && !o.warned && |o.prediction| == domain.NumActions() && AllZero(o.prediction)
  {
  }

  /** In every other state (neither listening nor the active form just ran)
      the policy predicts nothing. */
  lemma IdlePredictsNothing(domain: Domain, tracker: PolicyTracker)
    requires tracker.latestActionName != Some(ACTION_LISTEN_NAME)
    requires tracker.activeFormName.None? || tracker.latestActionName != tracker.activeFormName
    ensures var o := Predict(domain, tracker);
      o.Returned? && !o.warned && |o.prediction| == domain.NumActions() && AllZero(o.prediction)
  {
  }

  /** The prediction raises exactly when the active form just ran and the
      log does not back it up: no ActionExecuted, one for another action, or
      (when this policy chose it) no `action_listen` in the domain. */
  lemma RaisesExactlyWhen(domain: Domain, tracker: PolicyTracker, error: PolicyError)
    ensures Predict(domain, tracker) == Raised(error) <==>
      && tracker.latestActionName != Some(ACTION_LISTEN_NAME)
      && tracker.activeFormName.Some? && tracker.latestActionName == tracker.activeFormName
      && match error
         case NoActionExecutedEvent => tracker.lastActionExecuted.None?
         case ActionNameMismatch =>
           tracker.lastActionExecuted.Some?
           && tracker.lastActionExecuted.value.actionName != tracker.activeFormName.value
         case ListenActionUnknown =>
           tracker.lastActionExecuted.Some?
           && tracker.lastActionExecuted.value.actionName == tracker.activeFormName.value
           && ChosenByThisPolicy(tracker.lastActionExecuted.value.policy)
           && ACTION_LISTEN_NAME !in domain.actionNames
  {
  }

  /** A predicted action is always the active form (right after listening)
      or `action_listen` (right after the active form ran), at its first
      position in the domain. */
  lemma PredictedActionIsActiveFormOrListen(domain: Domain, tracker: PolicyTracker, k: int)
    requires Predict(domain, tracker).Returned?
    requires 0 <= k < |Predict(domain, tracker).prediction|
    requires Predict(domain, tracker).prediction[k] == 1.0
    ensures tracker.activeFormName.Some?
    ensures tracker.latestActionName == Some(ACTION_LISTEN_NAME) ==>
      IsFirstIndex(domain.actionNames, k, tracker.activeFormName.value)
    ensures tracker.latestActionName != Some(ACTION_LISTEN_NAME) ==>
      IsFirstIndex(domain.actionNames, k, ACTION_LISTEN_NAME)
  {
  }

  /** The truthiness test on the recorded policy adds nothing to the suffix
      test: the empty name never ends with the class name. */
  lemma ChosenByThisPolicyIsSuffixTest(policy: Option<string>)
    ensures ChosenByThisPolicy(policy) <==> policy.Some? && EndsWith(policy.value, POLICY_CLASS_NAME)
  {
  }
}
