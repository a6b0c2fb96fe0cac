/**
 The parts of the host dialogue framework that the CoCo plugin reads or
 produces, reduced to plain values: the domain's action registry, the two
 views of a conversation tracker (the policy's and the custom action's), the
 events a custom action returns, slot values, and the Python notions the
 plugin relies on (truthiness, `str.endswith`).
 */
module RasaHost {

  datatype Option<+T> = None | Some(value: T)

  /** The name of the framework's built-in "listen" action. */
  const ACTION_LISTEN_NAME: string := "action_listen"

  /** The action registry of a domain: the action names in domain order. */
  datatype Domain = Domain(actionNames: seq<string>)
  {
    function NumActions(): nat { |actionNames| }
  }

  /** `k` is the position of the first occurrence of `name` in `names`. */
  predicate IsFirstIndex(names: seq<string>, k: int, name: string)
  {
    0 <= k < |names| && names[k] == name && name !in names[..k]
  }

  /** The position of the first occurrence of `name`, or None when the domain
      does not know the action. */
  function IndexOf(names: seq<string>, name: string): (r: Option<nat>)
    ensures r.Some? ==> IsFirstIndex(names, r.value, name)
    ensures r.None? <==> name !in names
  {
    if names == [] then None
    else if names[0] == name then Some(0)
    else match IndexOf(names[1..], name)
      case None => None
      case Some(i) =>
        assert names[1..][..i] == names[1..i + 1];
        assert names[..i + 1] == [names[0]] + names[1..i + 1];
        Some(i + 1)
  }

  function IndexForAction(domain: Domain, name: string): Option<nat>
  {
    IndexOf(domain.actionNames, name)
  }

  /** An `ActionExecuted` event of the tracker's log: the action that ran and
      the name of the policy that predicted it, when one was recorded. */
  datatype ActionExecuted = ActionExecuted(actionName: string, policy: Option<string>)

  /** What the policy reads from a conversation tracker: the name of the
      latest action, the name of the active form, and the latest
      `ActionExecuted` event of the log, if there is one. */
  datatype PolicyTracker = PolicyTracker(
    latestActionName: Option<string>,
    activeFormName: Option<string>,
    lastActionExecuted: Option<ActionExecuted>)

  /** A slot value as Python holds it. Dictionaries keep insertion order. */
  datatype SlotValue =
    | NoneValue
    | BoolValue(b: bool)
    | IntValue(i: int)
    | FloatValue(f: real)
    | TextValue(s: string)
    | ListValue(items: seq<SlotValue>)
    | DictValue(entries: seq<(string, SlotValue)>)

  /** Python truthiness of a slot value: None, False, zero and empty
      containers are false, everything else is true. */
  predicate Truthy(v: SlotValue)
  {
    match v
    case NoneValue => false
    case BoolValue(b) => b
    case IntValue(i) => i != 0
    case FloatValue(f) => f != 0.0
    case TextValue(s) => s != ""
    case ListValue(items) => items != []
    case DictValue(entries) => entries != []
  }

  /** Python truthiness of an optional name: None and "" are false. */
  predicate TruthyName(name: Option<string>)
  {
    name.Some? && name.value != ""
  }

  /** Python's `s.endswith(suffix)`. */
  predicate EndsWith(s: string, suffix: string)
  {
    |suffix| <= |s| && s[|s| - |suffix|..] == suffix
  }

  /** A Python dictionary with string keys, as its items in insertion order. */
  type Dict = seq<(string, SlotValue)>

  predicate DistinctKeys(d: Dict)
  {
    forall i, j :: 0 <= i < j < |d| ==> d[i].0 != d[j].0
  }

  /** `d.get(key)`: the value stored under `key`, or None. */
  function Get(d: Dict, key: string): Option<SlotValue>
  {
    if d == [] then None
    else if d[0].0 == key then Some(d[0].1)
    else Get(d[1..], key)
  }

  /** What the custom action reads from its tracker: the conversation's
      sender id, the slots, and the text of the latest user message. */
  datatype ActionTracker = ActionTracker(
    senderId: string,
    slots: Dict,
    latestMessageText: Option<string>)

  /** Events a custom action returns to the framework: `Form(name)` makes
      `name` the active form (None deactivates it), `SlotSet(key, value)`
      sets a slot. */
  datatype Event = Form(name: Option<string>) | SlotSet(key: string, value: SlotValue)

  /** How the framework applies returned events to the active-form name. */
  function ActiveFormAfter(events: seq<Event>, current: Option<string>): Option<string>
  {
    if events == [] then current
    else match events[0]
      case Form(name) => ActiveFormAfter(events[1..], name)
      case SlotSet(_, _) => ActiveFormAfter(events[1..], current)
  }
}
