/**
 `coco_run`, the body of every CoCo custom action: send the user's latest
 text and the truthy slots to the component exchange, utter the reply once,
 and return a `Form` event (keeping the component active until it reports
 itself done) followed by one `SlotSet` per updated context entry.
 */
module CocoRun {
  import opened RasaHost

  /** The arguments of the single `coco.exchange` call. */
  datatype ExchangeRequest = ExchangeRequest(
    componentName: string,
    sessionId: string,
    userInput: Option<string>,
    context: Dict,
    flattenContext: bool)

  /** The exchange's reply: the text to utter, the context updates, and
      whether the component has finished. */
  datatype ExchangeResponse = ExchangeResponse(
    response: string,
    updatedContext: Dict,
    componentDone: bool)

  /** The context sent to the exchange: the slots whose values are truthy. */
  function ContextFromSlots(slots: Dict): (context: Dict)
    ensures |context| <= |slots|
    ensures forall e :: e in context <==> e in slots && Truthy(e.1)
  {
    if slots == [] then []
    else if Truthy(slots[0].1) then [slots[0]] + ContextFromSlots(slots[1..])
    else ContextFromSlots(slots[1..])
  }

  /** `sub` is `s` with some items left out, the rest in their order. */
  predicate IsSubsequence<T(==)>(sub: seq<T>, s: seq<T>)
  {
    if sub == [] then true
    else if s == [] then false
    else if sub[0] == s[0] then IsSubsequence(sub[1..], s[1..])
    else IsSubsequence(sub, s[1..])
  }

  /** The context keeps the slots in the tracker's order. */
  lemma {:induction false} ContextKeepsSlotOrder(slots: Dict)
    ensures IsSubsequence(ContextFromSlots(slots), slots)
  {
    if slots != [] {
      ContextKeepsSlotOrder(slots[1..]);
      var rest := ContextFromSlots(slots[1..]);
      if Truthy(slots[0].1) {
        assert ([slots[0]] + rest)[1..] == rest;
      } else if rest != [] {
        assert rest[0] in rest;
      }
    }
  }

  /** Read as a dictionary, the context holds exactly the truthy slots, each
      with its value unchanged, and its keys stay distinct. */
  lemma {:induction false} ContextIsTruthySlots(slots: Dict, key: string)
    requires DistinctKeys(slots)
    ensures DistinctKeys(ContextFromSlots(slots))
    ensures Get(ContextFromSlots(slots), key) ==
      match Get(slots, key)
      case Some(v) => if Truthy(v) then Some(v) else None
      case None => None
  {
    if slots != [] {
      assert DistinctKeys(slots[1..]) by {
        forall i, j | 0 <= i < j < |slots[1..]| ensures slots[1..][i].0 != slots[1..][j].0 {
          assert slots[1..][i] == slots[i + 1] && slots[1..][j] == slots[j + 1];
        }
      }
      ContextIsTruthySlots(slots[1..], key);
      var rest := ContextFromSlots(slots[1..]);
      if Truthy(slots[0].1) {
        var context := [slots[0]] + rest;
        assert context[1..] == rest;
        forall i, j | 0 <= i < j < |context| ensures context[i].0 != context[j].0 {
          if i == 0 {
            assert context[j] in slots[1..];
          }
        }
        if slots[0].0 != key {
          assert Get(context, key) == Get(rest, key);
        }
      } else if slots[0].0 == key {
        GetAbsent(rest, key);
      }
    }
  }

  /** A key that no item carries is not found. */
  lemma {:induction false} GetAbsent(d: Dict, key: string)
    requires forall e :: e in d ==> e.0 != key
    ensures Get(d, key) == None
  {
    if d != [] {
      assert d[0] in d;
      GetAbsent(d[1..], key);
    }
  }

  /** `[SlotSet(k, v) for k, v in updated.items()]` */
  function SlotEvents(updated: Dict): (events: seq<Event>)
    ensures |events| == |updated|
    ensures forall i :: 0 <= i < |events| ==> events[i] == SlotSet(updated[i].0, updated[i].1)
  {
    if updated == [] then []
    else [SlotSet(updated[0].0, updated[0].1)] + SlotEvents(updated[1..])
  }

  /** The component stays the active form while it is not done. */
  function ActiveComponent(componentName: string, response: ExchangeResponse): Option<string>
  {
    if !response.componentDone then Some(componentName) else None
  }

  /** The events `coco_run` returns for an exchange reply. */
  function RunEvents(componentName: string, response: ExchangeResponse): seq<Event>
  {
    [Form(ActiveComponent(componentName, response))] + SlotEvents(response.updatedContext)
  }

  /** There is one event more than context updates: first a `Form` naming
      the component while it is not done and None once it is, then the
      updates as `SlotSet` events, in their order; no other `Form`. */
  lemma RunEventsLayout(componentName: string, response: ExchangeResponse)
    ensures var events := RunEvents(componentName, response);
      && |events| == 1 + |response.updatedContext|
      && events[0] == Form(if response.componentDone then None else Some(componentName))
      && (forall i :: 0 <= i < |response.updatedContext| ==>
            events[i + 1] == SlotSet(response.updatedContext[i].0, response.updatedContext[i].1))
      && (forall i :: 0 < i < |events| ==> !events[i].Form?)
  {
  }

  /** Once the framework applies the returned events, the active form is
      the component while it is not done and None once it is, whatever it
      was before. */
  lemma RunEventsSetActiveForm(componentName: string, response: ExchangeResponse, current: Option<string>)
    ensures ActiveFormAfter(RunEvents(componentName, response), current) ==
      (if response.componentDone then None else Some(componentName))
  {
    var events := RunEvents(componentName, response);
    assert events[1..] == SlotEvents(response.updatedContext);
    SlotSetsKeepActiveForm(SlotEvents(response.updatedContext), ActiveComponent(componentName, response));
  }

  lemma {:induction false} SlotSetsKeepActiveForm(events: seq<Event>, current: Option<string>)
    requires forall i :: 0 <= i < |events| ==> events[i].SlotSet?
    ensures ActiveFormAfter(events, current) == current
  {
    if events != [] {
      SlotSetsKeepActiveForm(events[1..], current);
    }
  }

  /** The framework's collecting dispatcher: the messages uttered so far. */
  class Dispatcher {
    var messages: seq<string>

    constructor ()
      ensures messages == []
    {
      messages := [];
    }

    method UtterMessage(text: string)
      modifies this
      ensures messages == old(messages) + [text]
    {
      messages := messages + [text];
    }
  }

  /** The request `coco_run` sends for a tracker. */
  function RequestFor(componentName: string, tracker: ActionTracker): ExchangeRequest
  {
    ExchangeRequest(componentName, tracker.senderId, tracker.latestMessageText,
                    ContextFromSlots(tracker.slots), true)
  }

  /** `coco_run`. The exchange itself is not modelled: `response` is its
      reply to the returned `request`. The reply is uttered exactly once. */
  method Run(componentName: string, dispatcher: Dispatcher, tracker: ActionTracker, response: ExchangeResponse)
    returns (request: ExchangeRequest, events: seq<Event>)
    modifies dispatcher
    ensures request == RequestFor(componentName, tracker)
    ensures dispatcher.messages == old(dispatcher.messages) + [response.response]
    ensures events == RunEvents(componentName, response)
  {
    var context := ContextFromSlots(tracker.slots);
    request := ExchangeRequest(componentName, tracker.senderId, tracker.latestMessageText, context, true);
    var returnedSlots := SlotEvents(response.updatedContext);
    dispatcher.UtterMessage(response.response);
    var active := if !response.componentDone then Some(componentName) else None;
    events := [Form(active)] + returnedSlots;
  }
}
