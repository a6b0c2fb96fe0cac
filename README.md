# coco-rasa in Dafny

A model of the CoCo plugin for the Rasa dialogue framework. The plugin has two parts, and both come from `coco_rasa/coco_rasa.py`:

- `CoCoContextPolicy.predict_action_probabilities` is a deterministic policy. It keeps a CoCo component in charge of the conversation while the component's form is active. Right after the bot listens, it predicts the active form's action. Right after that action ran, it predicts `action_listen`, but only if this policy chose that action. Otherwise it predicts nothing. A prediction is a vector over the domain's actions with 0.0 everywhere and at most one 1.0.
- `coco_run` is the body of every CoCo custom action. It sends the truthy slots to the component exchange as context, utters the reply once, and returns one `Form` event followed by one `SlotSet` event per updated context entry. The `Form` event keeps the component active until the component reports that it is done.

Files:

- `host.dfy` (module `RasaHost`): the host objects the plugin touches, reduced to plain values. The domain is its list of action names, and `index_for_action` gives the first position of a name or None. It also holds the tracker views the two parts read, the `Form`/`SlotSet` events, slot values, and Python truthiness and `str.endswith`.
- `policy.dfy` (module `ContextPolicy`): `Predict` is the specification function. `PredictActionProbabilities` is the imperative version: it allocates the zero vector as an array and writes at most one entry in place. The file also holds one lemma per case of the decision.
- `run.dfy` (module `CocoRun`): the context filter, the translation of the reply into events, the collecting dispatcher as a class, and `Run`, the model of `coco_run`.
- `session.dfy` (module `Session`): the `Form` event returned by `coco_run` decides what the policy predicts on the next turn.

Modelling notes:

- Python raises in three places on the way to a prediction. The model returns each one as a `Raised` outcome instead of excluding it with a precondition:
  - the log holds no `ActionExecuted` event, so `None.action_name` fails;
  - the `assert` at line 81 fails;
  - `action_listen` is missing from the domain, so `prediction[None] = 1` fails.
- The source writes the integer `1` into a list of floats. The model writes `1.0`, which compares equal in Python.
- Case (a) of the decision tests the active form's name for truthiness, so `None` and `""` both count as "no form". Case (b) tests `is not None`, so an empty name can match there. The model keeps both tests as written.
- Python dictionaries are modelled as sequences of key/value pairs in insertion order. Python dictionaries always have distinct keys, so the dictionary-reading lemma assumes that for the tracker's slots.

## Model

| member | source | states |
|---|---|---|
| `RasaHost.IndexOf` | coco_rasa/coco_rasa.py:62-63 | The index of an action is its first position in the domain. The result is None exactly when the domain does not hold the name. |
| `ContextPolicy.PredictActionProbabilities` | coco_rasa/coco_rasa.py:46-108 | The in-place array computation returns exactly the outcome of the decision procedure `Predict`: the prediction vector with the warning flag, or the error Python raises. |
| `ContextPolicy.PredictionShape` | coco_rasa/coco_rasa.py:55-94 | A returned prediction has one entry per domain action. Every entry is 0.0 or 1.0, and at most one entry is 1.0. |
| `ContextPolicy.ListenPredictsActiveForm` | coco_rasa/coco_rasa.py:58-70 | After `action_listen`, a truthy active form that the domain knows is predicted one-hot at its first index, with no warning. |
| `ContextPolicy.ListenWithoutActiveForm` | coco_rasa/coco_rasa.py:58-61 | After `action_listen`, an active form that is None or "" gives the all-zero vector and no warning. |
| `ContextPolicy.ListenWithUnknownActiveForm` | coco_rasa/coco_rasa.py:61-68 | After `action_listen`, an active form that the domain does not know gives the all-zero vector and raises the warning. |
| `ContextPolicy.WarnsExactlyOnUnknownAction` | coco_rasa/coco_rasa.py:58-68 | The warning is given if and only if the last action is `action_listen` and the truthy active form is missing from the domain. |
| `ContextPolicy.ListenTakesPrecedence` | coco_rasa/coco_rasa.py:58-78 | After `action_listen`, the policy never raises, and the logged `ActionExecuted` event has no effect. Case (b) is not considered even when the active form is `action_listen` itself. |
| `ContextPolicy.MappedActionReturnsToListen` | coco_rasa/coco_rasa.py:78-94 | If the last action is the non-None active form, its `ActionExecuted` event names it, and the recorded policy ends with `CoCoContextPolicy`, the prediction is one-hot at `action_listen`'s first index. |
| `ContextPolicy.MappedActionOfOtherPolicy` | coco_rasa/coco_rasa.py:78-102 | If the active form just ran but the recorded policy is absent or has another suffix, the prediction is all zero and there is no warning. |
| `ContextPolicy.IdlePredictsNothing` | coco_rasa/coco_rasa.py:103-108 | If the last action is neither `action_listen` nor the active form, the prediction is all zero and there is no warning. |
| `ContextPolicy.RaisesExactlyWhen` | coco_rasa/coco_rasa.py:78-94 | The policy raises each of its three errors if and only if the active form just ran and that error's condition holds: no `ActionExecuted` event, an event for another action, or (when this policy chose the action) no `action_listen` in the domain. |
| `ContextPolicy.PredictedActionIsActiveFormOrListen` | coco_rasa/coco_rasa.py:58-94 | Any 1.0 entry sits at the first index of the active form (after listening) or of `action_listen` (otherwise), and a prediction is only ever made while a form is active. |
| `ContextPolicy.ChosenByThisPolicyIsSuffixTest` | coco_rasa/coco_rasa.py:82-84 | The policy-attribution test is true if and only if a policy name was recorded and it ends with `CoCoContextPolicy`. The truthiness test adds nothing. |
| `CocoRun.ContextFromSlots` | coco_rasa/coco_rasa.py:132-136 | The context holds exactly the slot entries whose values are truthy, and it is no longer than the slots. |
| `CocoRun.ContextKeepsSlotOrder` | coco_rasa/coco_rasa.py:132-136 | The context keeps the tracker's slot order. |
| `CocoRun.ContextIsTruthySlots` | coco_rasa/coco_rasa.py:132-136 | Read as a dictionary, the context maps each key to its slot value if that value is truthy and to nothing otherwise. Its keys stay distinct. |
| `CocoRun.SlotEvents` | coco_rasa/coco_rasa.py:144-146 | There is one `SlotSet` per updated context entry, at the same position, carrying that entry's key and value. |
| `CocoRun.RunEventsLayout` | coco_rasa/coco_rasa.py:144-149 | The returned list has 1 + n events. The first is a `Form` that names the component while it is not done and holds None once it is done. Then come the n `SlotSet` events in order, and there is no second `Form`. |
| `CocoRun.RunEventsSetActiveForm` | coco_rasa/coco_rasa.py:148-149 | Once the returned events are applied, the active form is the component while it is not done and None once it is done, whatever it was before. |
| `CocoRun.Dispatcher.UtterMessage` | coco_rasa/coco_rasa.py:147 | Uttering appends exactly that one message to the dispatcher. |
| `CocoRun.Run` | coco_rasa/coco_rasa.py:131-149 | The exchange request carries the component name, the sender id, the latest message text (or None), the truthy-slot context and `flatten_context=True`. The reply is uttered exactly once, and the events are those of `RunEvents`. |
| `Session.NextTurnFollowsComponent` | coco_rasa/coco_rasa.py:148-149 | After a component's turn and a new `action_listen`, the policy predicts the component if it is unfinished and in the domain. It warns if the component is unfinished and unknown. It predicts nothing once the component is done. |

## Left out

- `persist` / `load` (coco_rasa/coco_rasa.py:110-128): these write and read a JSON file holding the priority. That is file-system I/O through the host's helpers and the host `Policy` constructor, so the persist/load round trip is not modelled.
- `train` (coco_rasa/coco_rasa.py:35-43): it does nothing.
- `GenericCoCoAction` (coco_rasa/coco_rasa.py:152-159): `run` only calls `coco_run` with the component name `generic_coco`, and `name` returns that constant.
- The `coco.exchange` call (coco_rasa/coco_rasa.py:137-143) is a network call into the external SDK. `Run` returns the request it would send and takes the reply as a parameter.
- Logging (`logger.debug`) and the warning text are not modelled. The warning is kept only as a boolean flag. The `any(prediction)` test at line 72 only guards a log line.
- The internals of the host classes (`Domain`, `DialogueStateTracker`, `Tracker`, `CollectingDispatcher`, `SlotSet`, `Form`) are not part of this model:
  - `index_for_action` is taken to return the first position or None;
  - `ActiveFormAfter` takes `Form(name)` to replace the active form's name;
  - the dispatcher keeps only the uttered texts.
- `type(self).__name__` is fixed to `CoCoContextPolicy`. A subclass would compare against its own name.
- Running Python with `-O` removes the `assert` at line 81. The model follows the default, where the assert raises.
- Slot values cover None, booleans, integers, floats, strings, lists and dictionaries. Other Python objects and their truthiness are not modelled.
