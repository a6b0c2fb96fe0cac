/**
 How the custom action and the policy work together across turns: the
 `Form` event that `coco_run` returns decides what the policy predicts once
 the bot has listened to the user's next message.
 */
module Session {
  import opened RasaHost
  import opened ContextPolicy
  import opened CocoRun

  /** After a CoCo component's turn, once the bot has listened again, the
      policy predicts the component while it is unfinished and known to the
      domain, warns while it is unfinished and unknown, and predicts nothing
      once it is done. */
  lemma NextTurnFollowsComponent(
    domain: Domain, componentName: string, response: ExchangeResponse,
    before: Option<string>, lastExecuted: Option<ActionExecuted>)
    ensures
      var active := ActiveFormAfter(RunEvents(componentName, response), before);
      var o := Predict(domain, PolicyTracker(Some(ACTION_LISTEN_NAME), active, lastExecuted));
      && o.Returned?
      && (response.componentDone || componentName == "" ==>
            !o.warned && |o.prediction| == domain.NumActions() && AllZero(o.prediction))
      && (!response.componentDone && componentName != "" && componentName in domain.actionNames ==>
            !o.warned && OneHotAtFirst(o.prediction, domain.actionNames, componentName))
      && (!response.componentDone && componentName != "" && componentName !in domain.actionNames ==>
            o.warned && |o.prediction| == domain.NumActions() && AllZero(o.prediction))
  {
    var active := ActiveFormAfter(RunEvents(componentName, response), before);
    RunEventsSetActiveForm(componentName, response, before);
    var tracker := PolicyTracker(Some(ACTION_LISTEN_NAME), active, lastExecuted);
    if !TruthyName(active) {
      ListenWithoutActiveForm(domain, tracker);
    } else if componentName in domain.actionNames {
      ListenPredictsActiveForm(domain, tracker);
    } else {
      ListenWithUnknownActiveForm(domain, tracker);
    }
  }
}
