# EventDrivenChatBot in Dafny

A model of the toy event-driven chatbot `EventDrivenChatBot`. The bot keeps a
table, `accepted_messages`, from exact-match message strings to ordered lists
of callbacks. `register_callback(message, callback)` creates the list on first
use and appends to it. `handle_message(message)` runs every callback under the
message once, in registration order, or emits one "sorry, I don't understand"
notice when the message is unknown. The constructor registers four handlers:
a greeting under `"hi"`, a farewell under `"bye"`, and two age handlers under
`"age?"`.

Files:

- `events.dfy` (module `Events`): callbacks as an abstract datatype
  (`Greeting | Departure | Age | AgeDetailed | Other(id)`), the events a
  dispatch produces (`Invoked(callback)` or `NotUnderstood(message)`), the
  trace of running a list of callbacks, and its inverse.
- `registry.dfy` (module `Registry`): the table as
  `map<string, seq<Callback>>`, `Register`, its invariant (no key with an
  empty list), a series of registrations (`Apply`), and a reference
  definition (`CallbacksFor`) of what such a series appends under any key.
- `chatbot.dfy` (module `ChatBot`): `Dispatch` (the trace of
  `handle_message`), the loop `HandleMessage`, the constructor `New`, a bot
  state with its output, sessions of calls (`Run`), and the script at the end
  of `EventDrivenProgramming.py` (lines 56-60).

Running a callback is observed only as an `Invoked` event, and callbacks are
taken to leave the bot alone (see "## Left out"). Under that assumption
`handle_message` does not change the table: `Dispatch` returns a trace and no
table, and over a whole session this is stated by `ChatBot.RunMessages`.

## Model

| member | source | states |
|---|---|---|
| Events.Invocations | Intro-to-Autonomous-Flight/EventDrivenProgramming.py:52-54 | running a list of callbacks yields one `Invoked` event per callback, at the same position, nothing more |
| Events.InvokedCallbacksMembers | Intro-to-Autonomous-Flight/EventDrivenProgramming.py:53-54 | reading back the callbacks a trace shows as run (in order, skipping notices) yields a callback exactly when the trace invokes it |
| Events.InvocationsRoundTrip | Intro-to-Autonomous-Flight/EventDrivenProgramming.py:52-54 | reading the callbacks back from an invocation trace gives exactly the list that was run, in order |
| Registry.Register | Intro-to-Autonomous-Flight/EventDrivenProgramming.py:24-30 | the key is present afterwards; its list is the old list plus the callback at the end, or just the callback if the key was new; the list grows by exactly one; no key other than the message is added; every other key keeps its list; the non-empty-list invariant is preserved |
| Registry.RegisterTwice | Intro-to-Autonomous-Flight/EventDrivenProgramming.py:30 | registering the same callback twice lists it twice at the end: no de-duplication |
| Registry.ApplyCount | Intro-to-Autonomous-Flight/EventDrivenProgramming.py:28-30 | after any series of registrations, a callback occurs under a key as many more times as it was registered there: no de-duplication |
| Registry.CallbacksFor | Intro-to-Autonomous-Flight/EventDrivenProgramming.py:24-30 | the reference list for a key holds a callback exactly when some registration named that key with that callback |
| Registry.ApplyLookup | Intro-to-Autonomous-Flight/EventDrivenProgramming.py:28-30 | after any series of registrations, each key's list is its old list followed by exactly the callbacks registered under it, in registration order |
| Registry.ApplyKeys | Intro-to-Autonomous-Flight/EventDrivenProgramming.py:28-29 | a series of registrations adds exactly the registered messages as keys and removes none |
| Registry.ApplyValid | Intro-to-Autonomous-Flight/EventDrivenProgramming.py:9-30 | every key maps to a non-empty list after any series of registrations from a table where that already held |
| ChatBot.Dispatch | Intro-to-Autonomous-Flight/EventDrivenProgramming.py:48-54 | an unknown message yields exactly one `NotUnderstood` for it; a known one yields one `Invoked` per registered callback in list order; there is no notice exactly when the message is known |
| ChatBot.HandleMessage | Intro-to-Autonomous-Flight/EventDrivenProgramming.py:48-54 | the loop over the registered callbacks produces the dispatch trace |
| ChatBot.DispatchRunsRegistered | Intro-to-Autonomous-Flight/EventDrivenProgramming.py:48-54 | the callbacks a dispatch runs are exactly those registered under the message, in order, and none for an unknown message |
| ChatBot.DispatchAfterRegister | Intro-to-Autonomous-Flight/EventDrivenProgramming.py:24-54 | a callback registered under a message runs last when that message is dispatched; dispatching any other message is unaffected |
| ChatBot.New | Intro-to-Autonomous-Flight/EventDrivenProgramming.py:6-22 | a new bot has no output and exactly the keys `"hi"`, `"bye"`, `"age?"` with `[Greeting]`, `[Departure]`, `[Age, AgeDetailed]`; the invariant holds |
| ChatBot.NewDispatch | Intro-to-Autonomous-Flight/EventDrivenProgramming.py:15-22 | a new bot answers `"hi"`, `"bye"` and `"age?"` with their handlers (both age handlers, in order) and every other message with one notice |
| ChatBot.Step | Intro-to-Autonomous-Flight/EventDrivenProgramming.py:24-54 | handling a message appends its dispatch against the current table to the output and leaves the table unchanged; registering emits nothing; output is only ever extended; the invariant is preserved |
| ChatBot.RegistrationsOfMembers | Intro-to-Autonomous-Flight/EventDrivenProgramming.py:24-30 | a registration is applied by a session exactly when the session makes that `register_callback` call, as many registrations are applied as the session makes such calls, and a session of incoming messages alone registers nothing |
| ChatBot.RunMessages | Intro-to-Autonomous-Flight/EventDrivenProgramming.py:48-54 | after any session of calls, the table is the starting table with only the session's registrations applied: handling messages never changes it |
| ChatBot.RunReply | Intro-to-Autonomous-Flight/EventDrivenProgramming.py:48-54 | in any session, the reply to an incoming message is its dispatch against the table built by the starting table plus every registration made earlier in the session, appended after the earlier output |
| ChatBot.RunPreserves | Intro-to-Autonomous-Flight/EventDrivenProgramming.py:24-54 | a session only extends the output and keeps the non-empty-list invariant |
| ChatBot.ScriptTrace | Intro-to-Autonomous-Flight/EventDrivenProgramming.py:56-60 | sending "hi", "age?", "bye" to a new bot runs Greeting, Age, AgeDetailed, Departure in that order and leaves the table as constructed |

## Left out

- The text each callback prints and the wording of the "not understood" notice (lines 33, 36, 40, 45-46, 50): standard-output I/O; each is an abstract event.
- `birth_time`, `datetime.now()` and the elapsed-time arithmetic of the age handlers (lines 12, 39-46): they read a wall clock, and the `timedelta` normalisation belongs to a library that is not part of this model.
- `time.sleep(2.2)` in the script (line 58): a real-time pause with no effect on the table or on dispatch order.
- Exceptions raised inside a callback (line 54): they would propagate uncaught out of `handle_message`; callbacks are taken to return normally.
- Callbacks that call `register_callback` or `handle_message` on the bot while being dispatched: `handle_message` iterates the live list (lines 52-53), so a callback that appends under the message being handled would also run in that dispatch, and one that re-appends itself would never let the loop end. Callbacks are taken to leave the bot alone, which is what makes `Dispatch` work on the list found on entry and `ChatBot.Step`/`ChatBot.RunMessages` keep the table unchanged while handling; the four built-in callbacks only print and read the clock, so the script is unaffected.
- Callback identity: the program never compares callbacks, since nothing removes, de-duplicates or searches the lists. The model tells callbacks apart by datatype equality, which is what `Registry.RegisterTwice` and `Registry.ApplyCount` count.
