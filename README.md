# Contract tracker bot, modelled in Dafny

The bot is a Telegram bot (`main.py`) that lets a user pick a blockchain
network ("solana" or "sui") with an inline button and then send contract
addresses to track on it. Per user it keeps a record in a Firebase
Realtime Database under `/users/<user id>`. The record is a dictionary from
network name to the list of addresses sent for that network.

The bot has four stateful handlers:

- **Network selection:** a button press stores the chosen network in the
  user's conversation data.
- **Address submission:** if a network is pending, the message text is
  appended to that network's list and the record is written back.
- **`/status`:** renders the record as a header followed by one block per
  network.
- **`/stop`:** deletes the user's record.

This project models those handlers.

- `optional.dfy` (module `Optional`) holds the `Option` type used for
  Python's `None`.
- `text.dfy` (module `Text`) holds `str.capitalize` on ASCII and
  `str.join`. It also has a one-character `split`, proved to invert the
  join.
- `records.dfy` (module `Records`) models a user's record.
  - It is an insertion-ordered sequence of `Entry(network, addresses)`.
  - It has `record.get` (`Lookup`) and `setdefault(n, []).append(a)`
    (`AppendAddress`).
  - It states the invariant of stored records (`Stored`).
  - It models successive submissions (`AppendAll`).
- `status.dfy` (module `StatusReport`) is the exact text of the `/status`
  reply.
  - Its partner is a reader, `ParseStatus`, that recovers the shown record
    from that text.
  - The round trip between the two is proved.
- `tracker.dfy` (module `Tracker`) is the bot itself.
  - `TrackerBot` is a class whose fields are the database reference
    (`store: map<UserId, Record>`) and each user's pending network
    (`pending: map<UserId, string>`).
  - Each state-changing handler is a method with a `modifies` clause;
    `TrackerBot.Status` changes nothing and has none.
  - `/status` builds its reply in a loop, as the source does.
  - `/start`, `/help` and `/track` reply with fixed text and touch no state,
    so they appear only as the constants `Welcome`, `HelpText`,
    `TrackPrompt` and `Choices`.

Modelling choices:

- **Pending network:** the guard `if not network` is `HasPending`. It fails
  when no network was chosen, and also when the chosen value is the empty
  string, following Python truthiness.
- **Missing record:** `get() or {}` reads a missing record as the empty
  record.
- **Empty record:** `if not user_data` in `/status` treats a missing record
  and an empty record alike.
- **Pending network after a submission:** main.py never clears
  `context.user_data['network']` (main.py:73-86), so later messages go to
  the same network (`TrackerBot.SubmitAddress` keeps `pending`;
  `SubmitTwice`).
- **Replies:** every reply is the code's exact string, such as "You are not
  tracking any contracts.".

## Model

| member | source | states |
|---|---|---|
| Tracker.TrackerBot.constructor | main.py:29 | Models a fresh database: the store behind `db.reference("/users")` is empty, no user has a pending network, and the store invariant holds. |
| Tracker.TrackerBot.SelectNetwork | main.py:60-68 | The user's pending network becomes the button's data, overwriting any earlier choice. Other users' pending networks and the whole store are unchanged. The reply is "You selected " + capitalised network + ". Please send the contract address you want to track.". |
| Tracker.TrackerBot.SubmitAddress | main.py:70-86 | With no pending network, or an empty one: the store is unchanged and the reply is exactly "Please select a network first using /track.". Otherwise only this user's record changes. It becomes `AppendAddress` of the stored record, or of the empty record when none exists, with the unchecked text. The reply is "Started tracking contract address: <text> on <Network>.". The pending network is never cleared, and the `Stored` invariant is kept. |
| Tracker.TrackerBot.Status | main.py:88-102 | The reply built by the loop, which appends one network block per iteration, equals `StatusReply` of what the store holds for the user. That is "You are not tracking any contracts." for a missing or empty record, otherwise the header and the blocks in record order. The method has no `modifies` clause, so the store is unchanged. |
| Tracker.TrackerBot.Stop | main.py:104-108 | The user's key is removed from the store, whether or not it was present. Other users and every pending network are unchanged. The reply is "Stopped tracking all contracts.". |
| Tracker.StopTwice | main.py:104-108 | /stop is idempotent: two in a row leave the store as after one and give the same reply twice. |
| Tracker.StopThenStatus | main.py:88-108 | From any valid state, /stop followed by /status replies "You are not tracking any contracts.". |
| Tracker.SubmitTwice | main.py:73-86 | Because a submission does not clear the pending network, two submissions in a row both go to it. Both texts are appended to its list, in order, and even when equal. |
| Tracker.SubmittedUserIsTracking | main.py:79-95 | In any valid state, a user who has a record, which only a submission creates, is never told "You are not tracking any contracts.". |
| Tracker.NotTrackingExactlyWhenEmpty | main.py:91-95 | The /status reply is "You are not tracking any contracts." if and only if the record is missing or empty. A non-empty record never renders that way. |
| Tracker.TrackOneNetwork | main.py:60-102 | Choosing `n` and sending `a` on a fresh bot makes /status reply with exactly the text of the one-entry record `{n: [a]}`. |
| Tracker.TrackSecondNetwork | main.py:60-102 | Choosing `n1` and sending `a1`, then choosing a different `n2` and sending `a2`, makes /status show `{n1: [a1], n2: [a2]}` in that order. |
| Tracker.SolanaText | main.py:97-100 | The record `{"solana": ["ABC123"]}` renders as "Currently tracked contracts:\n" followed by "\nSolana:\nABC123\n". |
| Tracker.SolanaSuiText | main.py:97-100 | `{"solana": ["ABC123"], "sui": ["XYZ789"]}` renders as the header line, then "\nSolana:\nABC123\n", then "\nSui:\nXYZ789\n". |
| Tracker.SolanaBlock | main.py:99-100 | The block of `solana` with `ABC123` is "\nSolana:\nABC123\n". |
| Tracker.SuiBlock | main.py:99-100 | The block of `sui` with `XYZ789` is "\nSui:\nXYZ789\n". |
| Tracker.RenderStep | main.py:98-100 | One iteration of the rendering loop, adding "\n<Name>:\n" and then the joined addresses plus "\n", extends the message by exactly the next entry's block. |
| Records.Lookup | main.py:81 | `record.get(n)` is absent exactly when `n` is not one of the record's keys. |
| Records.AppendAddress | main.py:81 | `setdefault(n, []).append(a)`: the list for `n` becomes its old list, or `[]` if there was none, followed by `a`. The text is unchecked and not deduplicated, so the list grows by exactly one. Every other network's list is unchanged. The key order is kept, and a new key goes at the end. |
| Records.AppendAddressKeepsStored | main.py:79-82 | A submission to a non-empty network turns a missing or well-formed record into a well-formed one: non-empty, with distinct non-empty keys and a non-empty list under each. |
| Records.AppendAllLookup | main.py:79-82 | Successive submissions to `n` append all their texts to `n`'s list, in order, duplicates included. |
| Records.AppendAllOther | main.py:80-82 | Successive submissions to `n` leave every other network's list unchanged. |
| Records.AppendNew | main.py:81 | Appending to a network that is not yet a key adds the entry `(n, [a])` at the end of the record. |
| Records.AppendLast | main.py:81 | Appending to the network of the last entry extends that entry's list by one. |
| Records.AppendAllNew | main.py:79-82 | Submissions to a network that is not yet a key create its entry, holding exactly those texts, at the end of the record. |
| Records.TwoNetworks | main.py:79-82 | From a missing record, submitting `a1..ak` to `n1` and then `b1..bm` to a different `n2` yields exactly `{n1: [a1..ak], n2: [b1..bm]}`, in that order. |
| StatusReport.BodySnoc | main.py:98-100 | Adding an entry at the end of the record adds its block at the end of the rendered body. This is the loop's step. |
| StatusReport.StatusLines | main.py:97-100 | The reply is the header line, then for each network a blank line, its capitalised name line and its address lines, then a final empty line, all joined by "\n". |
| StatusReport.ParseGroupLines | main.py:98-100 | Reading the network groups of the reply gives back every entry, with its capitalised name and its addresses in stored order. |
| StatusReport.StatusRoundTrip | main.py:97-102 | For a record whose names and addresses hold no newline and whose addresses are non-empty, parsing the /status text gives back exactly the record with capitalised names. No network and no address is lost, added or reordered. |
| StatusReport.StatusReplyRoundTrip | main.py:91-102 | Parsing the /status reply of any printable stored value, including a missing or empty record, gives back what it shows. "Not tracking" reads as the empty record. |
| Text.CapitalizeSpec | main.py:99 | `capitalize()` leaves no lower-case first letter and no later upper-case letter, and keeps the string up to letter case. |
| Text.CapitalizeUnique | main.py:99 | Any string that is capitalised and equal to `s` up to case is `capitalize(s)`, so the two properties above define it. |
| Text.CapitalizeIdempotent | main.py:99 | Capitalising twice is capitalising once. |
| Text.CapitalizeKeepsNewlines | main.py:99 | Capitalising adds and removes no newline, so a network name never breaks a line of the reply. |
| Text.JoinAppend | main.py:100 | Joining two non-empty lists puts exactly one separator between their joins. |
| Text.Split | main.py:100 | Splitting at a character gives at least one piece. No piece holds the character, and joining the pieces with it gives back the string. |
| Text.SplitJoin | main.py:100 | Splitting a join at its one-character separator gives back the pieces, provided no piece holds the separator. |

## Left out

- **Telegram transport:** updates, `reply_text`, `query.answer`,
  `edit_message_text`, the inline keyboard, and handler registration in
  `main`. These are foreign library calls. Only the reply strings and the
  button data are modelled, and the filter that sends non-command text to
  the address handler is taken as given.
- **Firebase setup:** initialisation, credentials, `.env` loading and
  logging. The database reference is a map in `TrackerBot.store`.
- **Firebase storage behaviour:** the database's key ordering, its JSON
  serialisation, its rejection of keys holding `.`, `$`, `#`, `[`, `]` or
  `/`, and its dropping of empty nodes. The model keeps the dictionary's
  in-memory insertion order. `/status` output is therefore modelled as
  Python would print the record it wrote, not as the database might return
  it.
- **Concurrency:** submissions are atomic steps. The lost update that two
  concurrent read-modify-write handlers can cause is not modelled.
- **Process plumbing:** `keep_alive` and the two `__main__` blocks are not
  modelled. Note that `updater` there is local to `main()`, so the
  top-level `updater.start_polling()` refers to an undefined name.
- **Restarts:** a restart of the bot keeps the database, so `store` keeps
  its contents while every `pending` entry is cleared. The constructor
  models only a fresh database. `SubmitTwice`, `StopTwice`,
  `StopThenStatus` and `SubmittedUserIsTracking` take any valid bot, so
  they also cover the state after a restart.
- **User ids:** the store keys on `str(user_id)`, which is one-to-one on
  integers, so the integer id itself is the key.
- Text.Capitalize: models `str.capitalize` for ASCII letters only. Other
  Unicode letters, and characters whose case mapping changes length, are
  left as they are.
- StatusReport.StatusRoundTrip: requires names and addresses without
  newlines and addresses that are non-empty. Submitted text is not checked,
  so an address with a newline, or an empty one, makes the reply ambiguous
  and it cannot be read back.
- **Per-chat data:** the pending network is kept per user, which is how the
  bot's conversation data is keyed. Per-chat data is not modelled.
