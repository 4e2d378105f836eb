# Shared reaction panel: a Dafny model

This project models the two pieces of logic behind a real-time emoji
reaction panel.

**The server event log** (`app/api/reactions/route.ts`) is an in-memory list of
`{id, emoji, x, timestamp}` reactions, kept in arrival order. It has three operations:
- `POST` validates `{emoji, x}`, appends one reaction and keeps only the newest 1000.
- `GET` returns the reactions strictly newer than `since`, plus the server clock.
- A sweep timer shifts reactions off the front while they are older than ten seconds.

**The client reducers** (`app/page.tsx`) are the three state updates of the panel:
- the optimistic local append of a tapped reaction;
- the merge of a poll reply, which advances the high-water mark;
- the expiry filter, which reads a creation time back out of each reaction's id.

Everything is a pure function over immutable values. The store and the
panel state are passed in and returned. Clock readings (`Date.now()`) and
random draws (`Math.random()`) are parameters. Each timer tick is one call
that takes `now`.

Modules:
- `Wrappers` (wrappers.dfy): `Option`.
- `Seqs` (seqs.dfy): suffixes, order-preserving subsequences, and the model of `Array.prototype.filter`.
- `Js` (js.dfy): JSON values, truthiness, property reads that can throw, and ECMAScript `parseInt`. `parseInt` covers white space, sign and the `0x` prefix, and returns `NaN` when no digits are read. Also `Number.prototype.toString` for non-negative integers.
- `Ids` (ids.dfy): the string forms of a `Math.random()` draw, the id `Date.now().toString() + Math.random()`, and `id.split('.')[0]`.
- `Route` (route.dfy): the store, `POST`, `GET` and the sweep.
- `Panel` (panel.dfy): `addReaction`, `pollReactions` and the expiry tick.

In three places the code behaves differently from what its names, comments or a casual reading suggest. The model follows the code:
- A successful `POST` answers with status 200, the `NextResponse.json` default.
- A `since` that does not start with a number parses to `NaN`. `NaN` compares false with every timestamp, so `GET` returns nothing. Only a missing or empty `since` means 0.
- The expiry filter keeps a reaction while its computed age is `< 7000`. That age is not the time since creation; see Findings.

## Model

| member | source | states |
|---|---|---|
| Seqs.Filter | app/api/reactions/route.ts:25 | the result holds exactly the elements passing the test, each as often as in the input, in input order |
| Js.Member | app/api/reactions/route.ts:37 | destructuring throws exactly for `null`/`undefined`; otherwise it yields the object's own field, and `undefined` for a missing key or a non-object |
| Js.Truthy | app/api/reactions/route.ts:39 | a JSON value is falsy exactly when it is `undefined`, `null`, `false`, `0` or `""` |
| Js.TrimStart | app/api/reactions/route.ts:22 | the result is the input without its leading white space, and starts with no white space |
| Js.DigitRun | app/api/reactions/route.ts:22 | the result is the longest prefix of radix digits: the next character, if any, is not one |
| Js.ParseInt | app/api/reactions/route.ts:22 | blank input, or input starting with no sign or digit, or a sign with no digit after it, gives `NaN`; `-` or `+` before decimal digits gives the signed value of the longest digit run (`parseInt("-5") == -5`); a `0x`/`0X` prefix, signed or not, gives the signed value of the longest hex run, or `NaN` if it is empty (`parseInt("0x1A") == 26`); plain decimal input gives the value of its longest digit run |
| Js.Decimal | app/page.tsx:48 | `String(n)` is a non-empty digit string whose value is `n`; the only such string starting with `0` is `"0"` itself |
| Js.DigitsThenJunk | app/api/reactions/route.ts:22 | `parseInt` of digits followed by a non-digit reads just those digits (`"12abc"` gives 12) |
| Js.ParseDecimal | app/page.tsx:48 | round trip: `parseInt(String(n)) == n` for every non-negative integer |
| Js.NoLeadingDigitIsNaN | app/api/reactions/route.ts:22 | a string starting with no white space, sign or digit parses to `NaN`, not 0 |
| Js.EmptyIsNaN | app/api/reactions/route.ts:22 | `parseInt("")` is `NaN`, which is why a missing or empty `since` is replaced by `'0'` first |
| Ids.BeforeDot | app/page.tsx:77 | `split('.')[0]` is the longest dot-free prefix, stopping exactly at the first `.` |
| Ids.Render | app/page.tsx:23 | the string of any draw in [0, 1) starts with a decimal digit followed by nothing, `.` or `e` |
| Ids.MakeId | app/api/reactions/route.ts:47 | an id is the clock's decimal digits followed by at least one more character, and the first of those is also a digit |
| Ids.IdTimeOfMadeId | app/page.tsx:77 | for an id built at clock `t` (page.tsx:23, route.ts:47) the parsed prefix is `10·t + d` for the draw's first digit `d` in 0..9 |
| Route.PostResponse.Status | app/api/reactions/route.ts:40-65 | success is 200 with no error; invalid data is 400 with "Invalid reaction data"; a processing failure is 500 with "Failed to process reaction" |
| Route.Cap | app/api/reactions/route.ts:56-58 | the store keeps its newest `min(n, 1000)` entries: a suffix of that length |
| Route.Push | app/api/reactions/route.ts:53-58 | after an append the store holds the last `min(n+1, 1000)` entries of `store ++ [r]`; it ends with `r`, and the entries before `r` are a suffix of the old store |
| Route.Post | app/api/reactions/route.ts:34-67 | 500 exactly when the body does not parse or is `null`; 400 exactly for a falsy `emoji` or non-number `x`; the store changes only on success; on success the new reaction carries the given emoji, `x`, clock-built id and timestamp, is last, and the store is the capped suffix of `store ++ [r]` |
| Route.Query | app/api/reactions/route.ts:25 | exactly the stored reactions with `timestamp > since`, with multiplicity and in store order; never one with `timestamp == since`; nothing for `NaN` |
| Route.List | app/api/reactions/route.ts:20-32 | `GET` answers exactly the reactions newer than the parsed `since`, with multiplicity and in store order, and the current time; a `NaN` `since` answers nothing |
| Route.Sweep | app/api/reactions/route.ts:12-18 | the sweep removes exactly the longest prefix older than `now - 10000`: the result is a suffix, everything removed is older, and the new front is not |
| Route.SinceDefaultsToZero | app/api/reactions/route.ts:22 | a missing or empty `since` reads as 0 |
| Route.SinceText | app/api/reactions/route.ts:22 | the text parsed is never empty: a missing or empty parameter becomes `"0"`, any other value is passed through unchanged |
| Route.NonNumericSinceListsNothing | app/api/reactions/route.ts:22-25 | a `since` with no leading number lists nothing at all |
| Route.JunkAfterDigitsIgnored | app/api/reactions/route.ts:22-25 | a `since` of digits followed by a non-digit lists the same as the digits alone (`"007;"` like `"007"`); only `"0"` followed by `x` is excluded, since that switches to hex |
| Route.ListAllWithoutSince | app/api/reactions/route.ts:22-25 | with no `since`, every reaction stamped after time 0 is listed, in insertion order |
| Route.PushPreservesSorted | app/api/reactions/route.ts:53-58 | appending a reaction no older than the newest, then capping, keeps timestamps non-decreasing |
| Route.PostPreservesSorted | app/api/reactions/route.ts:46-58 | with a clock that does not run backwards, every `POST` keeps the store sorted |
| Route.SweepPreservesSorted | app/api/reactions/route.ts:15-16 | the sweep keeps a sorted store sorted |
| Route.SweepLeavesNothingOld | app/api/reactions/route.ts:14-16 | after a sweep of a sorted store no reaction older than the cutoff remains anywhere |
| Route.SweepNeedsSortedStore | app/api/reactions/route.ts:15 | without sortedness, an old reaction behind a newer one survives the sweep |
| Route.PushAllKeepsNewest | app/api/reactions/route.ts:53-58 | any run of submissions leaves exactly the newest `min(n, 1000)` of old store plus submissions, so a burst of 1500 leaves the last 1000 |
| Route.PostThenListEndsWithIt | app/api/reactions/route.ts:46-53 | a reaction just created is the last one listed by any query with an older `since` |
| Route.ListAfterPushAll | app/api/reactions/route.ts:53-58 | up to 1000 back-to-back submissions newer than `since` are returned together, in submission order, at the end of the query answer |
| Panel.Placement | app/page.tsx:21 | for a draw in [0, 1) the placement lies in [10, 90) |
| Panel.AddReaction | app/page.tsx:20-42 | exactly one entry is appended: local, with the given emoji, a clock-built id, no timestamp and the placement; earlier entries and the high-water mark are unchanged; the body sent is `{emoji, x}`; the `POST` outcome plays no part in the state |
| Panel.SubmissionAccepted | app/page.tsx:33-38 | the server accepts what `addReaction` sends exactly when the emoji is non-empty, storing the same emoji and placement; an empty emoji gets 400 and an unchanged store |
| Panel.ApplyPoll | app/page.tsx:46-62 | a non-empty reply is appended in server order with every field copied and `isLocal = false`, and the mark becomes the reply's timestamp; a failed, empty or missing reply changes nothing |
| Panel.Received | app/page.tsx:53-56 | a received reaction keeps id, emoji, x and timestamp and is marked remote |
| Panel.PollQuery | app/page.tsx:48 | the `since` text a poll sends parses on the server to exactly the client's high-water mark |
| Panel.PollAsksSinceMark | app/page.tsx:48 | the server parses the poll's `since` back to the client's mark, so the poll asks for exactly the reactions newer than it |
| Panel.FirstPollListsEverything | app/page.tsx:17-18 | from the initial state (empty list, mark 0) the first poll lists every stored reaction stamped after time 0, in insertion order |
| Panel.Expire | app/page.tsx:74-82 | the tick keeps exactly the entries whose computed age is below 7000, with multiplicity and in order |
| Panel.IdStillShown | app/page.tsx:76-79 | an entry is kept exactly when its id parses to a number `v` and `now < v + 7000`; an unparsable id is dropped |
| Panel.ExpireIdempotent | app/page.tsx:76-79 | for a fixed `now` a second expiry pass changes nothing |
| Panel.MadeIdShownUntil | app/page.tsx:77-78 | an entry whose id was built at `t` is kept exactly while `now < 10·t + d + 7000` |
| Panel.StillShownAfterSevenSeconds | app/page.tsx:77-78 | such an entry is still kept at every time from `t + 7000` up to `9·t + 7000` |
| Panel.ExpireByLifetime | app/page.tsx:74-82 | the corrected tick keeps exactly the entries made less than 7000 ms ago, with multiplicity and in order |
| Panel.MadeIdWithinLifetime | app/page.tsx:77-78 | with the draw's digit dropped, an id built at `t` reads back as `t`, and is kept exactly while `now - t < 7000` |

## Findings

| source | as written | input that shows it | evidently intended | confidence | as-written member | corrected member |
|---|---|---|---|---|---|---|
| app/page.tsx:77-78 | the age is `Date.now() - parseInt(id.split('.')[0])`. The id is `Date.now().toString() + Math.random()`, and the draw's string starts with a digit ("0.…", "0", or "d.…e-n"). So the prefix is `10·t + d`, not `t` | reaction made at `t = 1700000000000` with draw 0.5: id `"17000000000000.5"`, prefix 17000000000000. At `now = t + 7000` the age is negative and the reaction is kept | remove a reaction 7000 ms after it was made (the comment "Keep reactions for 7 seconds") | high; not executed | Panel.StillShownAfterSevenSeconds | Panel.ExpireByLifetime |

The corrected tick reads the creation time as the parsed prefix divided by ten. `Panel.MadeIdWithinLifetime` proves that this recovers `t` for every id built by the code, and that such an entry is kept for exactly 7000 ms. `Panel.Expire` stays the model of the code as written.

## Left out

- Rendering: the JSX, the framer-motion animation (page.tsx:84-169) and app/layout.tsx are presentation only.
- HTTP plumbing: `fetch`, `NextRequest`/`NextResponse`, URL decoding of the query string, and JSON (de)serialisation. A request body is a parsed JSON value or "malformed". The `JSON.stringify` and `request.json()` round trip of the client's body is taken as the identity.
- Timers: `setInterval` scheduling, and the interleaving of the poll (500 ms), expiry (100 ms) and sweep (1000 ms) ticks. Each tick is one call with its own `now`.
- Panel.Expire: the callback at page.tsx:77 reads `Date.now()` once per entry. The model uses one `now` for the whole tick.
- Route.Post: the two `Date.now()` readings (route.ts:47 and route.ts:50) are separate parameters, and nothing relates them.
- Random draws: only the string shape of a `Math.random()` draw is modelled, as far as the id prefix needs. The placement draw is a `real`, and its distribution is not modelled.
- Floating point: `x` is a `real`, with no IEEE rounding. `parseInt` results are exact integers: precision loss above 2^53 is not modelled.
- Js.Member: reads the fields of a parsed JSON object only; built-in and inherited properties such as `length` on a string or `toString` on an object are not modelled. The route reads only `emoji` and `x`, which are own properties of a parsed JSON body.
- Js.Decimal: covers the plain decimal form only. That is what `toString` gives for integers below 10^21, far beyond any clock reading.
- Strings are sequences of Unicode scalar values, not UTF-16 code units.
- Deduplication: there is none in the code. A client's own reaction comes back through the poll and is appended a second time, and the model keeps both copies.
- A truthy non-array `reactions` field in a poll reply is not modelled, because the server always sends an array.
- `console.error` logging of failed submissions and polls. A failure leaves the state unchanged and is otherwise dropped.
