# yatgl telegram client — Dafny model

yatgl sends NationStates telegrams. A single `Client` object holds the client key, the user agent, the pacing delay, a
deque of queued telegram requests, the set of recipients already sent to, the sending task and the campaign tasks.
The client queues telegrams by hand or through mass campaigns. A campaign either enumerates a group once ("one-shot":
all World Assembly members, all delegates, all members of some regions, the delegates approving or not approving a
proposal), or polls a group every minute and queues only the names it has not seen before (new WA members, new
region members, newly founded nations). Every send and every directory fetch goes through a 429 retry loop, and a
fetch also slows down when the rate-limit quota runs low.

The model has six modules:

- `Types` (types.dfy): the templates, requests, user agents, nation groups (with their enum values and the
  odd/even split), the `regions` argument, abstract API responses, and the errors the client raises.
- `Text` (text.dfy): recipient canonicalisation (`lower().replace(' ', '_')`), `str.split` on a one-character
  separator with its `join` partner, and substring search for the `'queued'` marker.
- `Deque` (deque.dfy): the deque as a sequence, `appendleft` and `pop`, and the proof that the two together are
  first-in first-out.
- `Governor` (governor.dfy): the retry-and-slow-down wrapper around directory fetches.
- `Campaign` (campaign.dfy): argument checks, the one-shot targets, the "not approving" difference, the proposal
  lookup that falls back from council 1 to council 2, and the diff of one poll against the names already seen.
  Fetches are answered from a `Directory` value: a snapshot of the API's delimited list fields.
- `ClientModel` (client.dfy): the `Client` class. Its fields are the source's attributes. Its methods are
  reconfiguration, `queue_tg`, dequeue, `start`, `stop`, `mass_telegram`, one send, one turn of the sending loop,
  the first step of a campaign and one poll iteration.

The server is modelled as a finite sequence of responses, one for each POST in order. Each response has a status,
the Retry-After, RateLimit-Remaining and RateLimit-Reset headers as integers, and a body. Waits are returned as a
trace of durations in seconds. They are not performed.

Conventions: a client key or proposal id of `""` stands for both `None` and the empty string. Python treats the two
alike (`not x`). The deque is a `seq` whose index 0 is its left end. `Client.Pending()` is that sequence in pop
order, oldest first.

Three places where the code does something its names do not suggest; the model follows the code:

- The polling diff compares names as fetched, not canonicalised (yatgl/client.py:237-245). "New Provi" and
  "new_provi" fetched in one poll are both queued. The sent ledger does use canonical names.
- A new-founds campaign starts from an empty baseline (yatgl/client.py:225-230). Its first poll queues every
  fetched name.
- The proactive slow-down waits the full RateLimit-Reset window, not `reset / remaining`. At
  yatgl/client.py:320 the assignment expression binds `remaining` to the comparison `int(...) <= 7`, so the
  divisor at line 322 is `True`, i.e. 1. `Governor.ProactiveWait` writes this out.

Enqueue is `appendleft` and dequeue is `pop` (right end). `Deque.DrainAfterAppends` proves that together they are
first-in first-out.

## Model

| member | source | states |
|---|---|---|
| `Types.NationGroup.OneShot` | yatgl/client.py:198 | an odd enum value holds exactly for the five one-shot groups; an even value exactly for new WA members, new founds and new region members |
| `Types.NationGroup.ValueDistinct` | yatgl/client.py:59-67 | no two groups share an enum value |
| `Text.Canonical` | yatgl/client.py:335 | the canonical recipient has the same length, contains no space and no upper-case ASCII letter |
| `Text.CanonicalIdempotent` | yatgl/client.py:335 | canonicalising a canonical name changes nothing |
| `Text.CanonicalFixed` | yatgl/client.py:335 | a name whose every character is already canonical is its own canonical form |
| `Text.CanonicalAgrees` | yatgl/client.py:352 | names whose characters agree after lower-casing and space replacement reach the same ledger entry |
| `Text.DisplayAndUnderscoreNamesAgree` | yatgl/client.py:352 | "New Provi" and "new_provi" both record "new_provi" |
| `Text.Split` | yatgl/client.py:263 | `split` returns at least one part, and no part contains the separator |
| `Text.JoinSplit` | yatgl/client.py:273 | joining the parts of a split with the separator gives back the field |
| `Text.SplitJoin` | yatgl/client.py:304 | splitting a join of separator-free parts gives back exactly those parts |
| `Text.SplitOfUnique` | yatgl/client.py:263 | a list of separator-free parts that joins back to the field is exactly the field's `split`, so "cut at every separator" fixes the list |
| `Text.Contains` | yatgl/client.py:351 | the `in` test is true exactly when the marker occurs at some position of the body |
| `Deque.PopOrder` | yatgl/client.py:328-329 | repeated `pop` hands out the deque's elements from the right end, i.e. in reverse index order |
| `Deque.AppendLeftLast` | yatgl/client.py:135 | an `appendleft` puts the new request last in pop order, behind everything already queued |
| `Deque.PopFirst` | yatgl/client.py:328-329 | `pop` returns the first request in pop order and leaves the others in their order |
| `Deque.DrainAfterAppends` | yatgl/client.py:129-135 | enqueuing R1..Rn and then draining hands out what was queued before, then R1..Rn in enqueue order |
| `Governor.Leading429` | yatgl/client.py:313-318 | the number of retries is the length of the run of 429 answers before the first other answer |
| `Governor.RetryAfters` | yatgl/client.py:316-318 | one wait per 429 answer, of that answer's Retry-After seconds, in order |
| `Governor.ProactiveWait` | yatgl/client.py:320-322 | after a non-429 answer there is exactly one wait, of RateLimit-Reset seconds, when RateLimit-Remaining is at most 7, and none otherwise |
| `Governor.ApiRequestWait` | yatgl/client.py:311-324 | posts once per answer until the first non-429 one and yields that answer; waits Retry-After after each 429, then the proactive wait; never yields a 429 |
| `Campaign.Validate` | yatgl/client.py:190-195 | the checks succeed exactly when neither the proposal check nor the regions check fails; a proposal group without a proposal fails, and so does a region group without regions (both directions); a single region string becomes a one-element list, a list stays as given, no regions give the empty list |
| `Campaign.RegionMembers` | yatgl/client.py:255-263 | a region's member list is its ':'-separated field cut at every ':': at least one part, no part holds ':', and joining the parts with ':' gives back the field |
| `Campaign.AllRegionsMembersParts` | yatgl/client.py:201-204 | at least one name per listed region, none holding ':' |
| `Campaign.AllRegionsMembersElems` | yatgl/client.py:201-204 | a name is among the members of the listed regions exactly when it is a member of one of them |
| `Campaign.AllRegionsMembersAppend` | yatgl/client.py:201-204 | region after region: the members for two region lists in a row are the first list's members followed by the second's |
| `Campaign.WaMembers` | yatgl/client.py:265-273 | the WA member list is its ','-separated field cut at every ',': at least one part, no part holds ',', and joining the parts with ',' gives back the field |
| `Campaign.WaDelegates` | yatgl/client.py:275-283 | the delegate list is its ','-separated field cut at every ',': at least one part, no part holds ',', and joining the parts with ',' gives back the field |
| `Campaign.NewNations` | yatgl/client.py:285-292 | the new-founds list is its ','-separated field cut at every ',': at least one part, no part holds ',', and joining the parts with ',' gives back the field |
| `Campaign.ApprovingDelegates` | yatgl/client.py:294-309 | the approving delegates hold no ':'; a non-empty list comes from a council that lists the proposal, the one asked or, when council 1 was asked, council 2 |
| `Campaign.ApprovingFallback` | yatgl/client.py:294-309 | the approvals come from council 1 if the proposal is listed there, else from council 2, else the list is empty |
| `Campaign.NotApproving` | yatgl/client.py:218-222 | the delegates left after removing the approving ones are never more than the delegates |
| `Campaign.NotApprovingMembers` | yatgl/client.py:218-222 | a delegate is queued exactly when it is not among the approving delegates (both directions) |
| `Campaign.NotApprovingInOrder` | yatgl/client.py:220-222 | the queued delegates keep the order of the delegate list |
| `Campaign.NotApprovingAppend` | yatgl/client.py:220-222 | filtering a concatenated delegate list gives the filtered parts concatenated, in order |
| `Campaign.NewNames` | yatgl/client.py:232-251 | one poll queues at most as many names as it fetched |
| `Campaign.NewNamesElems` | yatgl/client.py:232-251 | one poll queues exactly the fetched names that were not already known |
| `Campaign.NewNamesNoDuplicates` | yatgl/client.py:232-251 | one poll queues no name twice, even when the fetch lists it twice |
| `Campaign.NewNamesInFetchOrder` | yatgl/client.py:232-251 | one poll queues its new names in the order they were fetched |
| `Campaign.NewNamesAppend` | yatgl/client.py:232-251 | the poll walks the fetch front to back: the names queued for `a + b` are those for `a`, then those for `b` against everything known after `a`; with the one-name case this fixes the queued list in order of first occurrence |
| `Campaign.RepeatQueuedAtFirstOccurrence` | yatgl/client.py:232-251 | a name fetched twice, as in C, D, C, is queued at its first occurrence: C then D |
| `Campaign.OnlyLastIsNew` | yatgl/client.py:232-251 | when every fetched name but the last is already known, the poll queues exactly the last one |
| `Campaign.OneShotTargets` | yatgl/client.py:198-222 | group by group: all region members are the regions' members in region order, and a name is a target exactly when it is in one of the regions; all WA members and all delegates are their ','-separated field cut at every ','; the approving delegates are council 1's ':'-separated approvals, else council 2's, else none; the not-approving delegates are exactly the delegates absent from that list, in delegate order; a polling group has no targets here |
| `Campaign.Baseline` | yatgl/client.py:224-230 | the names known before the first poll: nothing for one-shot groups and new founds, and never more than one poll of the same directory fetches |
| `Campaign.PollFetch` | yatgl/client.py:232-251 | group by group: new region members fetch the regions' members in region order, a name exactly when it is in one of the regions; new WA members fetch the ','-separated member field cut at every ','; new founds fetch the ','-separated new-nations field cut at every ','; a one-shot group never polls |
| `Campaign.UnchangedDirectoryQueuesNobody` | yatgl/client.py:224-251 | for new region members and new WA members, a poll of a directory unchanged since the baseline queues nobody |
| `Campaign.NewFoundsFirstPoll` | yatgl/client.py:225-251 | the first new-founds poll queues every fetched name, because the baseline is empty |
| `Campaign.PollsEnqueueEachNameOnce` | yatgl/client.py:232-253 | over successive polls no name is queued twice and no baseline name is queued; every other polled name is queued |
| `Campaign.DedupExample` | yatgl/client.py:232-251 | baseline {A, B} with polls {A, B, C} and {A, B, C, D} queues C and then D, nothing else |
| `ClientModel.Client.constructor` | yatgl/client.py:101-108 | a fresh client has no key, no user agent, delay 185, an empty queue and ledger, no task and no campaigns |
| `ClientModel.Client.Configure` | yatgl/client.py:110-127 | only the passed keywords change fields; a delay below 30 fails and leaves the delay unchanged, but the key and user agent are already written; a delay of 30 or more is stored; the delay floor is kept |
| `ClientModel.Client.QueueTelegram` | yatgl/client.py:129-135 | the request is put at the deque's left end and becomes the newest pending request |
| `ClientModel.Client.QueueAll` | yatgl/client.py:206-212 | enqueuing a fetched list appends one request per name to the pending requests, in list order |
| `ClientModel.Client.DequeueOldest` | yatgl/client.py:328-329 | on a non-empty queue the oldest pending request is removed and returned, and the rest keep their order; on an empty queue nothing happens |
| `ClientModel.Client.Start` | yatgl/client.py:144-149 | fails without a key, then fails without a user agent; otherwise the sending task exists afterwards, and an existing task is left alone; queue, ledger and configuration are untouched |
| `ClientModel.Client.Stop` | yatgl/client.py:161-166 | with no task nothing changes; otherwise no task and no campaign handles remain; queue and ledger are untouched |
| `ClientModel.Client.MassTelegram` | yatgl/client.py:184-186 | the campaign handle is recorded, then the client is started with `start`'s outcome |
| `ClientModel.Client.SendTelegram` | yatgl/client.py:334-358 | every POST carries the same form with the canonical recipient; one wait of Retry-After per 429 before the resend; the ledger gains exactly the canonical recipient if the first non-429 body contains "queued", and is unchanged otherwise |
| `ClientModel.Client.ProcessQueueStep` | yatgl/client.py:326-332 | with a non-empty queue, the oldest request is sent, then the configured delay and a zero wait follow; with an empty queue, only the zero wait; the pacing wait after an answered send is at least 30 seconds |
| `ClientModel.Client.MassQueue` | yatgl/client.py:188-230 | invalid arguments fail before anything is queued; a one-shot group queues all its targets in order; a polling group queues nothing yet and takes its baseline |
| `ClientModel.Client.PollOnce` | yatgl/client.py:232-251 | the requests queued by one poll are those for `NewNames` of the fetch, appended in order behind the pending ones, and the known set grows by exactly the fetched names |

## Left out

- Network I/O: the aiohttp session, its headers, the POSTs and `session.close()`. Each fetch is answered from a
  `Directory` snapshot, and each send or governed request from a sequence of responses.
- XML parsing with BeautifulSoup. The model keeps only the `split` of the extracted field. The AttributeError raised
  when an element is missing is not modelled: an unknown region, an empty list element whose `.string` is `None`, or
  a proposal answer without an APPROVALS element.
- Header parsing errors: a missing header (KeyError) or a non-integer value (ValueError) in `int(...)`. Headers
  are integers in the model.
- asyncio: task creation, `gather`, `cancel`, `await self._tg_task` inside `start`, and real sleeps. The sending task
  and the campaign tasks are a flag and a list of handles. Waits are returned as durations.
- The 60-second sleep between polls, and the endless loops of the sending task and of polling campaigns. Each
  loop is modelled by one iteration (`ProcessQueueStep`, `PollOnce`), which the caller repeats.
- Governor waits around directory fetches: `Governor.ApiRequestWait` models the wrapper on its own, and campaign
  fetches read the snapshot directly.
- ClientModel.Client.SendTelegram: when the given responses run out while still answering 429, the outcome is
  `Unanswered`. The source would keep waiting for more answers.
- Text.Canonical: `str.lower()` is modelled for ASCII letters only. Non-ASCII case mapping is not modelled.
- The true division at yatgl/client.py:322. Because the divisor is the boolean `True`, the wait is the integer
  reset value.
- Logging and `UserAgent.__str__`.
- The singleton metaclass (yatgl/client.py:78-83): there is one `Client` object, and calling the constructor again
  is `Configure`. The very first construction is not modelled with keywords. In the source the instance is kept only
  after `__init__` returns (line 80), so a first `Client(client_key=k, delay=10)` that raises keeps nothing: the key
  written at line 118 is lost, and the next `Client()` starts from the defaults again. The model's `new Client()`
  followed by `Configure` keeps the key after the same failure.
- `Types.Regions`: the `regions` argument (yatgl/client.py:168, 188) is absent, one string, or a finite sequence.
  The sequence can be read again and again, in a fixed order. So a one-shot iterator is not modelled. In the source,
  a generator passed for new region members is used up by the baseline loop at line 227, and every later poll at
  line 235 then fetches nothing, so the campaign never queues anyone. A set passed as `regions` gives no fixed order.
- example.py: demo wiring with no logic of its own.
