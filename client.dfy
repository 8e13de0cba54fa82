/** The telegram client: the one object that holds the configuration, the
    delivery queue, the sent ledger and the handles of the running tasks, and
    the operations that change them. */
module ClientModel {
  import opened Types
  import opened Text
  import opened Deque
  import opened Governor
  import opened Campaign

  /** The smallest delay between two sends the client accepts, in seconds. */
  const MinDelay := 30
  /** The delay a fresh client starts with, in seconds. */
  const DefaultDelay := 185
  /** The marker in a sendTG answer body that means the telegram was accepted. */
  const QueuedMarker := "queued"

  /** The form fields of one sendTG POST. */
  datatype SendForm = SendForm(client: string, tgid: string, key: string, to: string)

  /** How one send ends: accepted, refused with the given body, or still
      waiting on 429 answers when the server's answers run out. */
  datatype SendOutcome = Delivered | Rejected(body: string) | Unanswered

  /** The outcome decided by the first answer that is not a 429. */
  function SendOutcomeOf(rs: seq<Response>): SendOutcome
  {
    var k := Leading429(rs);
    if k == |rs| then Unanswered
    else if Contains(rs[k].body, QueuedMarker) then Delivered
    else Rejected(rs[k].body)
  }

  /** One request per name, all with the same template, in name order. */
  function Requests(template: Template, names: seq<string>): (r: seq<TelegramRequest>)
    ensures |r| == |names|
    ensures forall i :: 0 <= i < |names| ==> r[i] == TelegramRequest(template, names[i])
    decreases |names|
  {
    if names == [] then []
    else Requests(template, names[..|names| - 1]) + [TelegramRequest(template, names[|names| - 1])]
  }

  /** Requests for a list extended by one name end with that name's request. */
  lemma RequestsAppend(template: Template, names: seq<string>, name: string)
    ensures Requests(template, names + [name]) == Requests(template, names) + [TelegramRequest(template, name)]
  {
    assert (names + [name])[..|names|] == names;
  }

  class Client {
    var clientKey: string               // "" stands for no key (None or empty)
    var userAgent: Option<UserAgent>
    var delay: int                      // seconds between two sends
    var sent: set<string>               // canonical names of accepted recipients
    var queue: seq<TelegramRequest>     // the deque; queue[0] is its left end
    var taskRunning: bool               // the sending task exists
    var campaigns: seq<nat>             // handles of the campaign tasks

    /** The delay floor holds in every reachable state. */
    ghost predicate Valid()
      reads this
    {
      delay >= MinDelay
    }

    /** The queued requests in the order they will be sent, oldest first. */
    ghost function Pending(): seq<TelegramRequest>
      reads this
    {
      PopOrder(queue)
    }

    /** The client as first created, before any keyword argument is applied. */
    constructor ()
      ensures Valid()
      ensures clientKey == "" && userAgent == None && delay == DefaultDelay
      ensures sent == {} && queue == [] && !taskRunning && campaigns == []
    {
      clientKey, userAgent, delay := "", None, DefaultDelay;
      sent, queue := {}, [];
      taskRunning, campaigns := false, [];
    }

    /** Calling the constructor on the existing client: only the keywords
        passed are applied, in order, and a delay below the floor is refused
        after the key and the user agent have already been written. */
    method Configure(key: Arg<string>, agent: Arg<Option<UserAgent>>, newDelay: Arg<int>) returns (r: Result<()>)
      requires Valid()
      modifies this`clientKey, this`userAgent, this`delay
      ensures Valid()
      ensures clientKey == (if key.Given? then key.value else old(clientKey))
      ensures userAgent == (if agent.Given? then agent.value else old(userAgent))
      ensures newDelay.Given? && newDelay.value < MinDelay ==> r == Err(DelayTooShort) && delay == old(delay)
      ensures newDelay.Given? && newDelay.value >= MinDelay ==> r == Ok(()) && delay == newDelay.value
      ensures newDelay.Absent? ==> r == Ok(()) && delay == old(delay)
    {
      if key.Given? {
        clientKey := key.value;
      }
      if agent.Given? {
        userAgent := agent.value;
      }
      r := Ok(());
      if newDelay.Given? {
        if newDelay.value < MinDelay {
          r := Err(DelayTooShort);
          return;
        }
        delay := newDelay.value;
      }
    }

    /** `queue_tg`: enqueue at the left end; the request becomes the newest
        pending one. */
    method QueueTelegram(template: Template, recipient: string)
      modifies this`queue
      ensures queue == [TelegramRequest(template, recipient)] + old(queue)
      ensures Pending() == old(Pending()) + [TelegramRequest(template, recipient)]
    {
      var request := TelegramRequest(template, recipient);
      AppendLeftLast(queue, request);
      queue := [request] + queue;
    }

    /** Enqueue one request per name, in name order. */
    method QueueAll(template: Template, names: seq<string>)
      modifies this`queue
      ensures Pending() == old(Pending()) + Requests(template, names)
    {
      var i := 0;
      while i < |names|
        invariant 0 <= i <= |names|
        invariant Pending() == old(Pending()) + Requests(template, names[..i])
      {
        QueueTelegram(template, names[i]);
        assert names[..i + 1][..i] == names[..i];
        i := i + 1;
      }
      assert names[..i] == names;
    }

    /** `queue.pop()` guarded by a non-empty check: hand out the oldest
        pending request. */
    method DequeueOldest() returns (r: Option<TelegramRequest>)
      modifies this`queue
      ensures old(queue) == [] ==> r == None && queue == []
      ensures old(queue) != [] ==> r == Some(old(Pending())[0]) && Pending() == old(Pending())[1..]
      ensures old(queue) != [] ==> queue == old(queue)[..|old(queue)| - 1]
    {
      if queue == [] {
        r := None;
      } else {
        PopFirst(queue);
        r := Some(queue[|queue| - 1]);
        queue := queue[..|queue| - 1];
      }
    }

    /** `start`: refuse without a key or a user agent; otherwise create the
        sending task unless it already exists. */
    method Start() returns (r: Result<()>)
      modifies this`taskRunning
      ensures clientKey == "" ==> r == Err(NoClientKey) && taskRunning == old(taskRunning)
      ensures clientKey != "" && userAgent.None? ==> r == Err(NoUserAgent) && taskRunning == old(taskRunning)
      ensures clientKey != "" && userAgent.Some? ==> r == Ok(()) && taskRunning
    {
      if clientKey == "" {
        return Err(NoClientKey);
      }
      if userAgent.None? {
        return Err(NoUserAgent);
      }
      if !taskRunning {
        taskRunning := true;
      }
      r := Ok(());
    }

    /** `stop`: nothing when no sending task exists; otherwise drop it and
        every campaign handle. The queue and the ledger are kept. */
    method Stop()
      modifies this`taskRunning, this`campaigns
      ensures !taskRunning
      ensures campaigns == if old(taskRunning) then [] else old(campaigns)
    {
      if taskRunning {
        taskRunning, campaigns := false, [];
      }
    }

    /** `mass_telegram`: record the new campaign's handle, then start. */
    method MassTelegram(handle: nat) returns (r: Result<()>)
      modifies this`taskRunning, this`campaigns
      ensures campaigns == old(campaigns) + [handle]
      ensures clientKey == "" ==> r == Err(NoClientKey) && taskRunning == old(taskRunning)
      ensures clientKey != "" && userAgent.None? ==> r == Err(NoUserAgent) && taskRunning == old(taskRunning)
      ensures clientKey != "" && userAgent.Some? ==> r == Ok(()) && taskRunning
    {
      campaigns := campaigns + [handle];
      r := Start();
    }

    /** `_send_tg`: post the same form until an answer other than 429
        arrives, waiting Retry-After seconds after each 429; a body with the
        marker records the canonical recipient as sent. */
    method SendTelegram(t: TelegramRequest, responses: seq<Response>)
      returns (posts: seq<SendForm>, waits: seq<int>, outcome: SendOutcome)
      modifies this`sent
      ensures var k := Leading429(responses);
        && |posts| == (if k < |responses| then k + 1 else k)
        && waits == RetryAfters(responses[..k])
      ensures forall i :: 0 <= i < |posts| ==>
        posts[i] == SendForm(clientKey, t.template.tgid, t.template.secretKey, Canonical(t.recipient))
      ensures outcome == SendOutcomeOf(responses)
      ensures sent == if outcome == Delivered then old(sent) + {Canonical(t.recipient)} else old(sent)
    {
      var recipient := Canonical(t.recipient);
      var form := SendForm(clientKey, t.template.tgid, t.template.secretKey, recipient);
      posts, waits, outcome := [], [], Unanswered;
      var i := 0;
      while i < |responses|
        invariant 0 <= i <= |responses|
        invariant forall j :: 0 <= j < i ==> responses[j].status == TooManyRequests
        invariant |posts| == i && forall j :: 0 <= j < i ==> posts[j] == form
        invariant waits == RetryAfters(responses[..i])
        invariant sent == old(sent) && outcome == Unanswered
      {
        posts := posts + [form];
        var resp := responses[i];
        if resp.status == TooManyRequests {
          waits := waits + [resp.retryAfter];
          i := i + 1;
        } else if Contains(resp.body, QueuedMarker) {
          sent := sent + {recipient};
          outcome := Delivered;
          return;
        } else {
          outcome := Rejected(resp.body);
          return;
        }
      }
      assert responses[..i] == responses;
    }

    /** One turn of the sending loop: when the queue is not empty, send its
        oldest request and wait the configured delay; then yield once. */
    method ProcessQueueStep(responses: seq<Response>)
      returns (item: Option<TelegramRequest>, waits: seq<int>, outcome: Option<SendOutcome>)
      requires Valid()
      modifies this`queue, this`sent
      ensures Valid()
      ensures outcome.Some? && outcome.value != Unanswered ==> |waits| >= 2 && waits[|waits| - 2] >= MinDelay
      ensures old(queue) == [] ==>
        item == None && outcome == None && waits == [0] && queue == [] && sent == old(sent)
      ensures old(queue) != [] ==>
        && item == Some(old(Pending())[0])
        && Pending() == old(Pending())[1..]
        && outcome == Some(SendOutcomeOf(responses))
        && sent == (if outcome == Some(Delivered) then old(sent) + {Canonical(item.value.recipient)} else old(sent))
        && waits == RetryAfters(responses[..Leading429(responses)])
                    + (if outcome == Some(Unanswered) then [] else [delay, 0])
    {
      if queue == [] {
        item, waits, outcome := None, [0], None;
        return;
      }
      item := DequeueOldest();
      var posts, sendWaits, o := SendTelegram(item.value, responses);
      outcome := Some(o);
      if o == Unanswered {
        waits := sendWaits;
      } else {
        waits := sendWaits + [delay, 0];
      }
    }

    /** `_mass_queue` up to its polling loop: check the arguments, then either
        enqueue every target of a one-shot group, or take the baseline of a
        polling group without enqueuing anything. */
    method MassQueue(template: Template, group: NationGroup, regions: Regions, proposal: string, d: Directory)
      returns (r: Result<CampaignState>)
      modifies this`queue
      ensures var v := Validate(group, regions, proposal);
        && (v.Err? ==> r == Err(v.error) && queue == old(queue))
        && (v.Ok? && group.OneShot() ==>
              r == Ok(Finished)
              && Pending() == old(Pending()) + Requests(template, OneShotTargets(group, v.value, proposal, d)))
        && (v.Ok? && !group.OneShot() ==>
              r == Ok(Polling(v.value, Baseline(group, v.value, d))) && queue == old(queue))
    {
      var v := Validate(group, regions, proposal);
      if v.Err? {
        return Err(v.error);
      }
      if group.OneShot() {
        QueueAll(template, OneShotTargets(group, v.value, proposal, d));
        r := Ok(Finished);
      } else {
        r := Ok(Polling(v.value, Baseline(group, v.value, d)));
      }
    }

    /** `queue_tg` inside the polling loop: the requests for the names queued
        so far, behind `base`, grow by one for `nation`. */
    method QueueNext(template: Template, nation: string, ghost base: seq<TelegramRequest>, ghost queued: seq<string>)
      requires Pending() == base + Requests(template, queued)
      modifies this`queue
      ensures Pending() == base + Requests(template, queued + [nation])
    {
      RequestsAppend(template, queued, nation);
      QueueTelegram(template, nation);
    }

    /** One iteration of the polling loop over what the poll fetched (see
        `PollFetch`): enqueue each name not yet known and add it to the known
        names. */
    method PollOnce(template: Template, existing: set<string>, fetched: seq<string>)
      returns (grown: set<string>)
      modifies this`queue
      ensures grown == existing + Elems(fetched)
      ensures Pending() == old(Pending()) + Requests(template, NewNames(existing, fetched))
    {
      grown := existing;
      ghost var queued: seq<string> := [];
      var i := 0;
      while i < |fetched|
        invariant 0 <= i <= |fetched|
        invariant grown == existing + Elems(fetched[..i])
        invariant queued + NewNames(grown, fetched[i..]) == NewNames(existing, fetched)
        invariant Pending() == old(Pending()) + Requests(template, queued)
      {
        var nation := fetched[i];
        NewNamesWalk(existing, fetched, i, grown, queued);
        if nation !in grown {
          QueueNext(template, nation, old(Pending()), queued);
          grown := grown + {nation};
          queued := queued + [nation];
        }
        i := i + 1;
      }
      assert fetched[..i] == fetched;
      assert fetched[i..] == [];
      assert queued == NewNames(existing, fetched);
    }
  }
}
