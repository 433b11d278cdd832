# Undercover game utilities: a verified Dafny model

This project models the game utilities of an "Undercover" word game played by
language-model agents. They live in `utils.py`:

- the enumerations `GamePhase` (description, discussion, voting, guessing) and
  `GameRole` (civilian, undercover, Mr. White);
- the `Message` record (sender, content, receiver list) and its display line;
- `MessagePool`, the append-only message list. It answers "which messages can
  this participant see": the messages addressed to them plus the messages they
  sent. With no name, or an empty name, it answers with the whole pool;
- `VoteManager`, the ballot box of one round. It holds one count per roster
  name, keyed by the normalised name (`strip().capitalize()`). A vote counts
  only for a known name. The eliminated name is the first key in roster order
  with the highest count.

Files:

- `game_types.dfy` (module `GameTypes`): the enumerations and their values,
  `Message`, the display line and its inverse, and the `Option`/`Result`
  wrappers.
- `names.dfy` (module `Names`): `strip()` and `capitalize()` over ASCII
  characters, and `Normalise`, which applies both.
- `ledger.dfy` (module `Ledger`): the `MessagePool` class. Its query is a loop
  proved equal to the recursive specification `Filter`/`History`. Lemmas state
  what a view contains and in which order.
- `ballot.dfy` (module `Ballot`): the `VoteManager` class. It keeps its key
  order as a `seq<string>` and its counts as a `map<string, int>`, so the
  tie-break can be stated. A ghost counter holds the number of accepted votes,
  and the class invariant ties it to the sum of the counts.

Behaviour of the code worth noting:

- A tie goes to the first key in roster order, whatever order the votes
  arrived in (`max` over the dictionary keeps the first maximal key).
- A round with no votes eliminates the first roster key
  (`AllTiedElectsFirst`). Only an empty roster is an error (`EmptyRoster`).
- The empty name, like no name at all, gets the whole pool unfiltered.
- `capitalize()` lower-cases everything after the first character, so
  `"bob SMITH"` becomes `"Bob smith"`. A roster name and a vote match only when
  they agree after that lower-casing.

## Model

| member | source | states |
|---|---|---|
| `GameTypes.PhaseValue` | utils.py:5-12 | each phase has its enumeration value: description 0, discussion 1, voting 2, guessing 3 |
| `GameTypes.PhaseFromValue` | utils.py:5-12 | a value names a phase exactly when it lies in 0..3, and the phase found has that value |
| `GameTypes.PhaseValueRoundTrip` | utils.py:5-12 | looking up a phase's value gives back the phase |
| `GameTypes.RoleValue` | utils.py:15-21 | each role has its enumeration value: civilian 0, undercover 1, Mr. White 2 |
| `GameTypes.RoleFromValue` | utils.py:15-21 | a value names a role exactly when it lies in 0..2, and the role found has that value |
| `GameTypes.RoleValueRoundTrip` | utils.py:15-21 | looking up a role's value gives back the role |
| `GameTypes.Display` | utils.py:41-42 | the display line is the sender, then ": ", then the content, and nothing else |
| `GameTypes.DisplayRoundTrip` | utils.py:41-42 | when the sender has no ':', the sender and the content can be read back from the display line |
| `GameTypes.ParseDisplaySound` | utils.py:41-42 | every line that parses is the display line of the message it names, whatever that message's receivers |
| `Names.TrimLeftIsSuffix` | utils.py:121 | the left trim removes only a whitespace prefix and keeps the rest of the string unchanged |
| `Names.TrimRightIsPrefix` | utils.py:121 | the right trim removes only a whitespace suffix and keeps the rest of the string unchanged |
| `Names.Strip` | utils.py:121 | the stripped name is empty or starts and ends with a non-space character |
| `Names.StripIsSlice` | utils.py:134 | strip returns a contiguous slice of its input, with only whitespace cut on each side |
| `Names.Capitalize` | utils.py:121 | capitalising keeps the length, upper-cases the first character and lower-cases every other one |
| `Names.Normalise` | utils.py:121 | the normal form is as long as the stripped name, has no whitespace at either end, upper-cases the first character of the stripped name and lower-cases the rest |
| `Names.NormaliseIdempotent` | utils.py:134 | normalising a normalised name changes nothing |
| `Names.StripIgnoresPadding` | utils.py:134 | whitespace added on either side of a name does not change what strip returns |
| `Names.NormaliseIgnoresPadding` | utils.py:134 | whitespace added on either side of a vote does not change the name it counts for |
| `Ledger.Filter` | utils.py:93-100 | a participant's view is no longer than the pool, and each message in it is in the pool and visible to that participant |
| `Ledger.History` | utils.py:91-100 | a query returns messages of the pool only; with no name or the empty name it returns the whole pool |
| `Ledger.FilterIsOrderedSubsequence` | utils.py:93-100 | the view is the pool's visible messages in insertion order: its k-th message is the one at the k-th visible position, and every visible position is included |
| `Ledger.FilterMembership` | utils.py:95-98 | a message is in a view exactly when it is in the pool and was addressed to or sent by the viewer |
| `Ledger.FilterAppend` | utils.py:93-100 | the view of a concatenated pool is the first part's view followed by the second part's view |
| `Ledger.FilterIdempotent` | utils.py:93-100 | filtering a view again for the same participant returns it unchanged |
| `Ledger.HistoryAfterAdd` | utils.py:67-100 | adding a message extends each view by that message if the viewer can see it, and by nothing otherwise |
| `Ledger.HistoryMembership` | utils.py:95-98 | for a non-empty name, a sender always sees their own messages, and a message neither addressed to nor sent by them never appears |
| `Ledger.PrivateMessageVisibility` | utils.py:95-98 | a message addressed only to its sender appears in the sender's view and in no other named participant's view |
| `Ledger.MessagePool.constructor` | utils.py:56-65 | a new pool holds the given messages, or nothing when none are given |
| `Ledger.MessagePool.AddMessage` | utils.py:67-76 | the pool grows by exactly one message, placed last, with the given sender, content and receivers; earlier messages are unchanged |
| `Ledger.MessagePool.GetMessage` | utils.py:78-100 | the result is the whole pool when the name is absent or empty, and otherwise that participant's view in insertion order; the pool is not changed |
| `Ballot.Dedup` | utils.py:120-122 | duplicates are dropped: the result has no repeats and holds exactly the elements of the input |
| `Ballot.DedupFirstOccurrenceOrder` | utils.py:120-122 | the kept elements follow the order of their first occurrence |
| `Ballot.DedupOfDistinct` | utils.py:120-122 | a list without repeats is kept as it is |
| `Ballot.RosterKeys` | utils.py:120-122 | the vote keys have no repeats, are no more numerous than the roster, and are exactly the normalised roster names |
| `Ballot.RosterKeysSpec` | utils.py:120-122 | the vote keys are distinct normalised names: every roster name's normal form is a key, every key is its own normal form, and keys follow first-occurrence roster order |
| `Ballot.RosterKeysNoCollision` | utils.py:120-122 | when no two roster names normalise alike, the keys are the normalised roster, in roster order |
| `Ballot.ZeroCounts` | utils.py:120-122 | the fresh tally has exactly the roster keys, each with count 0 |
| `Ballot.Tally` | utils.py:134-136 | a vote adds exactly one to its normalised name's count if that name is a key; all other counts and the key set are unchanged |
| `Ballot.TallyTotal` | utils.py:134-136 | one vote raises the sum of the counts by one when it names a key and leaves it unchanged otherwise |
| `Ballot.TotalIsAcceptedVotes` | utils.py:120-136 | after any sequence of votes on a fresh tally, the sum of the counts equals the number of votes that named a roster key |
| `Ballot.MaxIndex` | utils.py:145 | the chosen position holds a maximal count, and every earlier key has a strictly lower count |
| `Ballot.Eliminated` | utils.py:138-145 | an empty roster is an error; otherwise the result is a key with the highest count, placed no later than any key that ties with it |
| `Ballot.SingleVoteElects` | utils.py:120-145 | one vote for a roster name on a fresh tally makes that name the one eliminated |
| `Ballot.AllTiedElectsFirst` | utils.py:138-145 | when all counts are equal (no vote cast, say), the first roster key is eliminated |
| `Ballot.VoteManager.constructor` | utils.py:110-122 | the keys are the distinct normalised roster names in first-occurrence order, each with count 0 |
| `Ballot.VoteManager.AddVote` | utils.py:124-136 | the count of the vote's normalised name rises by one if it is a key, and nothing changes otherwise; the key order is unchanged and the sum of the counts stays equal to the number of accepted votes |
| `Ballot.VoteManager.GetEliminatedAgent` | utils.py:138-145 | an empty roster is an error; otherwise the result is a key whose count is at least every other count, and it comes first in roster order among the keys that tie with it |

## Left out

- `environment.py` (game set-up, role assignment, the phase state machine,
  turn order, termination and win evaluation) is not part of this model. Every
  method there has an empty body, so there is no behaviour to model.
- The agents (`agents/agent.py`, `agents/outlines_agent.py`) and the driver
  (`example.py`) are not part of this model. They make language-model calls,
  format prompts, parse HTML, sleep and write log files.
- `Message.__repr__` only delegates to the display line (`Display`).
- Aliasing is not modelled: `get_message` with no name returns the pool's own
  list object, and the pool keeps the list it was constructed with. The model
  works on sequence values.
- `Names.Strip`: only ASCII whitespace is removed (code points 9-13 and 28-32).
  Python also strips non-ASCII whitespace such as U+00A0 and U+2028.
- `Names.Capitalize`: only ASCII letters change case. Python's Unicode title-
  and lower-casing, which can also change the string's length, is not modelled.
- `Ballot.VoteManager.GetEliminatedAgent`: Python raises `ValueError` on an
  empty roster; the model returns `Err(EmptyRoster)` instead.
