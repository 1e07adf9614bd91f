# Store mutations, modelled in Dafny

The store of this Vue application keeps one state record with two string
fields, `msg` and `username`, and exposes a table of three synchronous
mutations:

- `setMsg` appends the current `username` to `msg`;
- `resetMsg` sets `msg` to the greeting `"Hello "` (with its trailing space);
- `setUserName` replaces `username` with the committed payload.

`mutations.dfy` (module `Mutations`) models the record as an immutable
`State` datatype and each mutation as a pure function from the old record to
the new one, with contracts saying what each writes and what it leaves alone,
and lemmas about idempotence, overwriting and short compositions.

`commits.dfy` (module `Commits`) turns the name-keyed table into a closed
`Action` type with a dispatch function `Apply`, and `Run` commits a sequence
of actions in order. Lemmas about runs: splitting a run, the user name left by
a run (the last payload committed), repeated appends, and the effect of a
final reset.

## Model

| member | source | states |
|---|---|---|
| `Mutations.SetMsg` | src/store/mutations.js:2-4 | the new message is the old message followed by the user name: the old message is a prefix, the rest is exactly the user name, the length grows by the user name's length; the user name is unchanged |
| `Mutations.ResetMsg` | src/store/mutations.js:5-7 | the message becomes `"Hello "` regardless of its previous value; the user name is unchanged |
| `Mutations.SetUserName` | src/store/mutations.js:8-10 | the user name becomes the payload verbatim; the message is unchanged |
| `Mutations.SetMsgFixedIffEmptyName` | src/store/mutations.js:3 | `setMsg` leaves the state as it was if and only if the user name is empty |
| `Mutations.SetMsgNotIdempotent` | src/store/mutations.js:3 | with a non-empty user name, committing `setMsg` twice differs from committing it once: the name is appended twice |
| `Mutations.ResetMsgIdempotent` | src/store/mutations.js:6 | committing `resetMsg` twice equals committing it once |
| `Mutations.ResetMsgForgetsMsg` | src/store/mutations.js:5-7 | two states coincide after `resetMsg` if and only if they had the same user name: the old message is forgotten |
| `Mutations.SetUserNameLastWins` | src/store/mutations.js:9 | `setUserName` is idempotent, and of two consecutive calls only the second payload matters |
| `Mutations.SetUserNameForgetsName` | src/store/mutations.js:8-10 | two states coincide after setting the same payload if and only if they had the same message: the old user name is forgotten |
| `Mutations.ResetThenSetMsgGreets` | src/store/mutations.js:3-6 | `resetMsg` followed by `setMsg` leaves the message `"Hello "` followed by the user name |
| `Mutations.ResetAbsorbsSetMsg` | src/store/mutations.js:2-7 | `setMsg` followed by `resetMsg` is the same as `resetMsg` alone |
| `Mutations.ResetMsgCommutesWithSetUserName` | src/store/mutations.js:5-10 | `resetMsg` and `setUserName` write different fields, so either order gives the same state |
| `Commits.Apply` | src/store/mutations.js:1-11 | dispatching a mutation writes exactly one field: `setUserName` keeps the message and stores the payload, the other two keep the user name; reset writes the greeting, append writes message plus user name |
| `Commits.Run` | src/store/mutations.js:1-11 | over any sequence of commits without a reset, the starting message stays a prefix of the message; once a reset is among them, the message starts with `"Hello "` |
| `Commits.RunAppend` | src/store/mutations.js:1-11 | committing one sequence and then another equals committing their concatenation |
| `Commits.RunUserName` | src/store/mutations.js:8-10 | after a sequence of commits the user name is the payload of the last `setUserName`, or the starting user name when there was none |
| `Commits.RepeatedSetMsg` | src/store/mutations.js:2-4 | `k` commits of `setMsg` append the user name `k` times, growing the message by `k` times its length, and keep the user name |
| `Commits.RunEndingInReset` | src/store/mutations.js:5-7 | whatever came before, a final `resetMsg` leaves the message `"Hello "` and otherwise the state the earlier commits produced |
| `Commits.RunEndingInResetThenSetMsg` | src/store/mutations.js:2-7 | a final `resetMsg` then `setMsg` leaves `"Hello "` followed by the user name the earlier commits left |

## Left out

- Store construction, commit by string key, and Vue reactivity belong to the framework and are not in the mutation table; the closed `Action` type stands in for the name lookup, so an unknown mutation name cannot be expressed.
- JavaScript's implicit coercion in `msg + username` (line 3) and the untyped payload of `setUserName`: both fields and the payload are modelled as strings only.
- In-place mutation of a shared record: each mutation is modelled as a function returning the new record, which is equivalent because the updates are synchronous and the caller serialises commits.
- The components that commit these mutations are not part of this model.
