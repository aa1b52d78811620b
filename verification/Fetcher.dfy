/** The off-chain metadata fetcher (metadata/fetcher.go): a bounded queue, workers that fetch and retry with a
    delay, recorded failures, and the scanner that queues whatever is still unfetched. */
module Fetcher {
  import opened Bytes
  import opened Maps
  import opened Numbers

  const SCAN_LIMIT := 100

  /** The hash of a pool's metadata reference or of a governance anchor: each kind has its own tables. */
  datatype Ref = Pool(hash: Bytes) | Governance(hash: Bytes)

  /** `id` numbers the accepted requests. */
  datatype Request = Request(id: nat, ref: Ref, url: string, retryCount: nat)

  datatype ErrorRow = ErrorRow(ref: Ref, retryCount: nat)

  datatype Reference = Reference(ref: Ref, url: string)

  function Limit(maxRetries: int): nat { if maxRetries < 0 then 0 else maxRetries }

  /** The scanner's query for one reference: no data row, and no error row or one with retries left. */
  predicate Unfetched(stored: set<Ref>, errors: seq<ErrorRow>, ref: Ref, maxRetries: int) {
    && ref !in stored
    && ((forall i | 0 <= i < |errors| :: errors[i].ref != ref)
        || exists i | 0 <= i < |errors| :: errors[i].ref == ref && errors[i].retryCount < maxRetries)
  }

  /** Where an accepted request is. */
  datatype Place = Queued | Waiting | InProgress(worker: nat) | Stored | Failed

  /** History of an accepted request: its place, and how often processFetchRequest was called for it. */
  datatype Ticket = Ticket(place: Place, fetches: nat)

  type Tickets = map<nat, Ticket>

  /** The request's retries are within the limit and account for its fetches. */
  ghost predicate Backed(r: Request, tickets: Tickets, current: nat, max: int) {
    r.retryCount <= Limit(max) && r.id in tickets && tickets[r.id].fetches == r.retryCount + current
  }

  /** The queue holds exactly the requests whose place it is, each once, fetched once per retry used. */
  ghost predicate QueueOk(queue: seq<Request>, tickets: Tickets, max: int) {
    && (forall i | 0 <= i < |queue| :: Backed(queue[i], tickets, 0, max) && tickets[queue[i].id].place == Queued)
    && (forall i, j | 0 <= i < j < |queue| :: queue[i].id != queue[j].id)
    && (forall id | id in tickets && tickets[id].place == Queued :: exists i :: 0 <= i < |queue| && queue[i].id == id)
  }

  ghost predicate WaitingOk(waiting: map<nat, Request>, tickets: Tickets, max: int) {
    && (forall id | id in waiting :: waiting[id].id == id && Backed(waiting[id], tickets, 0, max) && tickets[id].place == Waiting)
    && (forall id | id in tickets && tickets[id].place == Waiting :: id in waiting)
  }

  /** ... and once more while it is being fetched. */
  ghost predicate WorkingOk(working: map<nat, Request>, tickets: Tickets, max: int) {
    && (forall w | w in working :: Backed(working[w], tickets, 1, max) && tickets[working[w].id].place == InProgress(w))
    && (forall id | id in tickets && tickets[id].place.InProgress? ::
          tickets[id].place.worker in working && working[tickets[id].place.worker].id == id)
  }

  /** There is a ticket for every accepted request, with at most one fetch more than there are retries; a failed
      one used them all. */
  ghost predicate TicketsOk(tickets: Tickets, accepted: nat, max: int) {
    && (forall id: nat :: id in tickets <==> id < accepted)
    && (forall id | id in tickets :: tickets[id].fetches <= Limit(max) + 1)
    && (forall id | id in tickets && tickets[id].place == Failed :: tickets[id].fetches == Limit(max) + 1)
  }

  // ---- moving one request from place to place ----

  ghost predicate IsAt(tickets: Tickets, id: nat, place: Place) { id in tickets && tickets[id].place == place }

  lemma QueueAppend(queue: seq<Request>, tickets: Tickets, r: Request, max: int)
    requires QueueOk(queue, tickets, max) && !IsAt(tickets, r.id, Queued) && r.retryCount <= Limit(max)
    ensures QueueOk(queue + [r], tickets[r.id := Ticket(Queued, r.retryCount)], max)
  {
    var q, t := queue + [r], tickets[r.id := Ticket(Queued, r.retryCount)];
    forall id | id in t && t[id].place == Queued ensures exists i :: 0 <= i < |q| && q[i].id == id {
      if id == r.id {
        assert q[|queue|].id == id;
      } else {
        var i :| 0 <= i < |queue| && queue[i].id == id;
        assert q[i].id == id;
      }
    }
  }

  lemma QueuePop(queue: seq<Request>, tickets: Tickets, ticket: Ticket, max: int)
    requires QueueOk(queue, tickets, max) && queue != [] && ticket.place != Queued
    ensures QueueOk(queue[1..], tickets[queue[0].id := ticket], max)
    ensures Backed(queue[0], tickets, 0, max) && IsAt(tickets, queue[0].id, Queued)
  {
    var q, t := queue[1..], tickets[queue[0].id := ticket];
    forall id | id in t && t[id].place == Queued ensures exists i :: 0 <= i < |q| && q[i].id == id {
      var i :| 0 <= i < |queue| && queue[i].id == id;
      assert q[i - 1].id == id;
    }
  }

  lemma QueueOther(queue: seq<Request>, tickets: Tickets, id: nat, ticket: Ticket, max: int)
    requires QueueOk(queue, tickets, max) && !IsAt(tickets, id, Queued) && ticket.place != Queued
    ensures QueueOk(queue, tickets[id := ticket], max)
  {
    var t := tickets[id := ticket];
    forall x | x in t && t[x].place == Queued ensures exists i :: 0 <= i < |queue| && queue[i].id == x {
      assert x in tickets;
    }
  }

  lemma WaitingAdd(waiting: map<nat, Request>, tickets: Tickets, r: Request, max: int)
    requires WaitingOk(waiting, tickets, max) && !IsAt(tickets, r.id, Waiting) && r.retryCount <= Limit(max)
    ensures WaitingOk(waiting[r.id := r], tickets[r.id := Ticket(Waiting, r.retryCount)], max)
  {}

  lemma WaitingRemove(waiting: map<nat, Request>, tickets: Tickets, id: nat, ticket: Ticket, max: int)
    requires WaitingOk(waiting, tickets, max) && id in waiting && ticket.place != Waiting
    ensures WaitingOk(waiting - {id}, tickets[id := ticket], max)
    ensures waiting[id].id == id && Backed(waiting[id], tickets, 0, max) && IsAt(tickets, id, Waiting)
  {}

  lemma WaitingOther(waiting: map<nat, Request>, tickets: Tickets, id: nat, ticket: Ticket, max: int)
    requires WaitingOk(waiting, tickets, max) && !IsAt(tickets, id, Waiting) && ticket.place != Waiting
    ensures WaitingOk(waiting, tickets[id := ticket], max)
  {}

  lemma WorkingAdd(working: map<nat, Request>, tickets: Tickets, w: nat, r: Request, max: int)
    requires WorkingOk(working, tickets, max) && w !in working && r.retryCount <= Limit(max)
    requires r.id in tickets ==> !tickets[r.id].place.InProgress?
    ensures WorkingOk(working[w := r], tickets[r.id := Ticket(InProgress(w), r.retryCount + 1)], max)
  {}

  lemma WorkingRemove(working: map<nat, Request>, tickets: Tickets, w: nat, ticket: Ticket, max: int)
    requires WorkingOk(working, tickets, max) && w in working && !ticket.place.InProgress?
    ensures WorkingOk(working - {w}, tickets[working[w].id := ticket], max)
    ensures Backed(working[w], tickets, 1, max) && IsAt(tickets, working[w].id, InProgress(w))
  {}

  lemma WorkingOther(working: map<nat, Request>, tickets: Tickets, id: nat, ticket: Ticket, max: int)
    requires WorkingOk(working, tickets, max) && !ticket.place.InProgress?
    requires id in tickets ==> !tickets[id].place.InProgress?
    ensures WorkingOk(working, tickets[id := ticket], max)
  {}

  lemma TicketsMove(tickets: Tickets, accepted: nat, id: nat, ticket: Ticket, max: int)
    requires TicketsOk(tickets, accepted, max) && id in tickets && ticket.fetches <= Limit(max) + 1
    requires ticket.place == Failed ==> ticket.fetches == Limit(max) + 1
    ensures TicketsOk(tickets[id := ticket], accepted, max)
  {}

  lemma TicketsNew(tickets: Tickets, accepted: nat, max: int)
    requires TicketsOk(tickets, accepted, max)
    ensures accepted !in tickets && TicketsOk(tickets[accepted := Ticket(Queued, 0)], accepted + 1, max)
  {}

  ghost predicate InQueue(queue: seq<Request>, id: nat) { exists i :: 0 <= i < |queue| && queue[i].id == id }

  ghost predicate BeingFetched(working: map<nat, Request>, id: nat) { exists w :: w in working && working[w].id == id }

  function One(b: bool): nat { if b then 1 else 0 }

  /** Every accepted request is in exactly one of queued, waiting, in progress, stored and failed. */
  lemma ExactlyOnePlace(queue: seq<Request>, waiting: map<nat, Request>, working: map<nat, Request>, tickets: Tickets,
                        accepted: nat, max: int, id: nat)
    requires TicketsOk(tickets, accepted, max) && QueueOk(queue, tickets, max)
    requires WaitingOk(waiting, tickets, max) && WorkingOk(working, tickets, max) && id < accepted
    ensures One(InQueue(queue, id)) + One(id in waiting) + One(BeingFetched(working, id))
            + One(IsAt(tickets, id, Stored)) + One(IsAt(tickets, id, Failed)) == 1
  {
    assert InQueue(queue, id) <==> tickets[id].place == Queued;
    assert id in waiting <==> tickets[id].place == Waiting;
    assert BeingFetched(working, id) <==> tickets[id].place.InProgress?;
  }

  // ---- the scanner ----

  /** The references for which the query holds, in its order. */
  function Answer(stored: set<Ref>, errors: seq<ErrorRow>, references: seq<Reference>, max: int): seq<Reference> {
    if references == [] then []
    else
      var last := references[|references| - 1];
      Answer(stored, errors, references[..|references| - 1], max)
      + if Unfetched(stored, errors, last.ref, max) then [last] else []
  }

  /** The answer is the references for which the query holds, each once, in their order. */
  ghost predicate Selects(references: seq<Reference>, stored: set<Ref>, errors: seq<ErrorRow>, max: int,
                          answer: seq<Reference>, at: seq<nat>) {
    && |at| == |answer| && (forall i | 0 <= i < |at| :: at[i] < |references| && answer[i] == references[at[i]])
    && (forall i, j | 0 <= i < j < |at| :: at[i] < at[j])
    && forall k: nat | k < |references| :: k in at <==> Unfetched(stored, errors, references[k].ref, max)
  }

  lemma SelectNext(references: seq<Reference>, stored: set<Ref>, errors: seq<ErrorRow>, max: int, answer: seq<Reference>, at: seq<nat>)
    requires references != [] && Selects(references[..|references| - 1], stored, errors, max, answer, at)
    ensures var n := |references| - 1;
            if Unfetched(stored, errors, references[n].ref, max) then
              Selects(references, stored, errors, max, answer + [references[n]], at + [n])
            else Selects(references, stored, errors, max, answer, at)
  {
    hide Unfetched;
    var n := |references| - 1;
    assert forall k: nat | k < n :: references[..n][k] == references[k];
    assert forall k: nat :: k in at + [n] <==> k in at || k == n;
  }

  lemma {:induction false} AnswerExact(stored: set<Ref>, errors: seq<ErrorRow>, references: seq<Reference>, max: int) returns (at: seq<nat>)
    ensures Selects(references, stored, errors, max, Answer(stored, errors, references, max), at)
  {
    at := [];
    if references != [] {
      var n := |references| - 1;
      at := AnswerExact(stored, errors, references[..n], max);
      hide Unfetched, Selects;
      SelectNext(references, stored, errors, max, Answer(stored, errors, references[..n], max), at);
      if Unfetched(stored, errors, references[n].ref, max) {
        at := at + [n];
      } else {
        assert Answer(stored, errors, references[..n], max) + [] == Answer(stored, errors, references[..n], max);
      }
    }
  }

  /** What is queued of an answer: its first references, as many as the limit of 100 and the room allow, numbered from
      `first`, with no retry used. */
  lemma QueuedOfAnswer(answer: seq<Reference>, room: nat, first: nat)
    ensures var queued := Requests(Admitted(answer, room), first);
            && |queued| == Min(|answer|, Min(100, room))
            && forall i | 0 <= i < |queued| :: queued[i] == Request(first + i, answer[i].ref, answer[i].url, 0)
  {}

  /** Those within the query's limit that find room in the queue. */
  function Admitted(answer: seq<Reference>, room: nat): seq<Reference>
  { answer[..Min(|answer|, Min(SCAN_LIMIT, room))] }

  function Requests(references: seq<Reference>, first: nat): seq<Request> {
    seq(|references|, i requires 0 <= i < |references| => Request(first + i, references[i].ref, references[i].url, 0))
  }

  /** A recorded failure has used up all retries, so the query returns exactly the references that are neither
      stored nor recorded as failed. */
  lemma RecordedNeverUnfetched(stored: set<Ref>, errors: seq<ErrorRow>, ref: Ref, maxRetries: int)
    requires forall e | e in errors :: e.retryCount == Limit(maxRetries)
    ensures (exists i | 0 <= i < |errors| :: errors[i].ref == ref) ==> !Unfetched(stored, errors, ref, maxRetries)
    ensures Unfetched(stored, errors, ref, maxRetries) <==> ref !in stored && forall i | 0 <= i < |errors| :: errors[i].ref != ref
  {
    assert forall i | 0 <= i < |errors| :: errors[i] in errors;
  }

  lemma {:induction false} AnswerUnrecorded(stored: set<Ref>, errors: seq<ErrorRow>, references: seq<Reference>, max: int)
    requires forall e | e in errors :: e.retryCount == Limit(max)
    ensures forall r | r in Answer(stored, errors, references, max) ::
              r.ref !in stored && forall j | 0 <= j < |errors| :: errors[j].ref != r.ref
  {
    hide Unfetched;
    if references != [] {
      var n := |references| - 1;
      AnswerUnrecorded(stored, errors, references[..n], max);
      RecordedNeverUnfetched(stored, errors, references[n].ref, max);
    }
  }

  lemma AdmitNext(answer: seq<Reference>, r: Reference, room: nat, first: nat)
    ensures var before, after := Admitted(answer, room), Admitted(answer + [r], room);
            && |before| == Min(|answer|, Min(SCAN_LIMIT, room))
            && if |answer| < SCAN_LIMIT && |before| < room then
              |after| == |before| + 1 && Requests(after, first) == Requests(before, first) + [Request(first + |before|, r.ref, r.url, 0)]
            else after == before
  {}

  ghost predicate Unrecorded(r: Request, stored: set<Ref>, errors: seq<ErrorRow>) {
    r.ref !in stored && forall j | 0 <= j < |errors| :: errors[j].ref != r.ref
  }

  lemma QueuedUnrecorded(stored: set<Ref>, errors: seq<ErrorRow>, references: seq<Reference>, max: int, room: nat, first: nat)
    requires forall e | e in errors :: e.retryCount == Limit(max)
    ensures forall r | r in Requests(Admitted(Answer(stored, errors, references, max), room), first) :: Unrecorded(r, stored, errors)
  {
    AnswerUnrecorded(stored, errors, references, max);
    hide Unfetched, Answer;
    var admitted := Admitted(Answer(stored, errors, references, max), room);
    forall r | r in Requests(admitted, first) ensures Unrecorded(r, stored, errors) {
      var i :| 0 <= i < |admitted| && Requests(admitted, first)[i] == r;
      assert admitted[i] in Answer(stored, errors, references, max);
    }
  }

  lemma NothingAdmitted(room: nat, first: nat)
    ensures Requests(Admitted([], room), first) == [] && Admitted([], room) == []
  {}

  // ---- the steps, as a state machine ----

  datatype Step =
    | Queue(ref: Ref, url: string)
    | Takes(w: nat, urlBusy: bool)
    | Finishes(w: nat, fetched: bool, recorded: bool)
    | Wakes(id: nat)
    | Scan(pools: seq<Reference>, anchors: seq<Reference>, poolsRead: bool, anchorsRead: bool)

  datatype View = View(queue: seq<Request>, waiting: map<nat, Request>, working: map<nat, Request>,
                       stored: set<Ref>, errors: seq<ErrorRow>, accepted: nat)

  /** Queueing references in order, as far as there is room. */
  function Queueing(v: View, references: seq<Reference>, size: nat): View
    decreases |references|
  {
    if references == [] || |v.queue| >= size then v
    else
      var r := references[0];
      Queueing(v.(queue := v.queue + [Request(v.accepted, r.ref, r.url, 0)], accepted := v.accepted + 1), references[1..], size)
  }

  function FirstHundred(references: seq<Reference>): seq<Reference> { references[..Min(|references|, SCAN_LIMIT)] }

  /** One step; one that is not possible now changes nothing. */
  function Next(v: View, s: Step, max: int, size: nat): View {
    match s
    case Queue(ref, url) =>
      if |v.queue| >= size then v
      else v.(queue := v.queue + [Request(v.accepted, ref, url, 0)], accepted := v.accepted + 1)
    case Takes(w, urlBusy) =>
      if v.queue == [] || w in v.working then v
      else
        var r := v.queue[0];
        if urlBusy then v.(queue := v.queue[1..], waiting := v.waiting[r.id := r])
        else v.(queue := v.queue[1..], working := v.working[w := r])
    case Finishes(w, fetched, recorded) =>
      if w !in v.working then v
      else
        var r := v.working[w];
        var done := v.(working := v.working - {w});
        if fetched && r.ref !in v.stored then done.(stored := v.stored + {r.ref})
        else if r.retryCount < max then done.(waiting := v.waiting[r.id := r.(retryCount := r.retryCount + 1)])
        else if recorded then done.(errors := v.errors + [ErrorRow(r.ref, r.retryCount)])
        else done
    case Wakes(id) =>
      if id in v.waiting && |v.queue| < size then v.(queue := v.queue + [v.waiting[id]], waiting := v.waiting - {id})
      else v
    case Scan(pools, anchors, poolsRead, anchorsRead) =>
      if !poolsRead then v
      else
        var v' := Queueing(v, FirstHundred(Answer(v.stored, v.errors, pools, max)), size);
        if !anchorsRead then v' else Queueing(v', FirstHundred(Answer(v.stored, v.errors, anchors, max)), size)
  }

  function After(v: View, steps: seq<Step>, max: int, size: nat): View {
    if steps == [] then v else Next(After(v, steps[..|steps| - 1], max, size), steps[|steps| - 1], max, size)
  }

  /** Queueing one by one is queueing what finds room. */
  lemma {:induction false} QueueingAll(v: View, references: seq<Reference>, size: nat)
    requires |v.queue| <= size
    ensures var fit := references[..Min(|references|, size - |v.queue|)];
            Queueing(v, references, size) == v.(queue := v.queue + Requests(fit, v.accepted), accepted := v.accepted + |fit|)
    decreases |references|
  {
    if references == [] || |v.queue| >= size {
      assert v.queue + Requests([], v.accepted) == v.queue;
    } else {
      var r := references[0];
      var v' := v.(queue := v.queue + [Request(v.accepted, r.ref, r.url, 0)], accepted := v.accepted + 1);
      QueueingAll(v', references[1..], size);
      var rest := references[1..][..Min(|references| - 1, size - |v'.queue|)];
      var fit := references[..Min(|references|, size - |v.queue|)];
      assert fit == [r] + rest;
      assert v'.queue + Requests(rest, v'.accepted) == v.queue + Requests(fit, v.accepted);
    }
  }

  class MetadataFetcher {
    const maxRetries: int
    const queueSize: nat
    var queue: seq<Request>
    var waiting: map<nat, Request>        // sleeping before they are sent to the queue again
    var working: map<nat, Request>        // by worker
    var stored: set<Ref>                // references with an off_chain_*_data row
    var errors: seq<ErrorRow>             // off_chain_*_fetch_errors
    var accepted: nat
    ghost var tickets: map<nat, Ticket>   // one for each accepted request: it is in exactly one place

    ghost predicate Valid()
      reads this
    {
      && TicketsOk(tickets, accepted, maxRetries) && QueueOk(queue, tickets, maxRetries)
      && WaitingOk(waiting, tickets, maxRetries) && WorkingOk(working, tickets, maxRetries)
      && |queue| <= queueSize && (forall e | e in errors :: e.retryCount == Limit(maxRetries))
    }

    constructor (maxRetries: int, queueSize: nat)
      ensures Valid() && accepted == 0 && errors == [] && stored == {}
    {
      this.maxRetries, this.queueSize := maxRetries, queueSize;
      queue, waiting, working, stored, errors, accepted := [], map[], map[], {}, [], 0;
      tickets := map[];
    }

    /** QueuePoolMetadata and QueueGovernanceMetadata refuse a request when the queue is full. */
    method QueueMetadata(ref: Ref, url: string) returns (ok: bool)
      requires Valid()
      modifies this`queue, this`accepted, this`tickets
      ensures Valid() && ok == (|old(queue)| < queueSize)
      ensures queue == (if ok then old(queue) + [Request(old(accepted), ref, url, 0)] else old(queue))
      ensures accepted == old(accepted) + (if ok then 1 else 0)
      ensures tickets == (if ok then old(tickets)[old(accepted) := Ticket(Queued, 0)] else old(tickets))
      ensures ok ==> old(accepted) !in old(tickets)
    {
      hide TicketsOk, QueueOk, WaitingOk, WorkingOk;
      ok := |queue| < queueSize;
      if ok {
        var r := Request(accepted, ref, url, 0);
        TicketsNew(tickets, accepted, maxRetries);
        QueueAppend(queue, tickets, r, maxRetries);
        WaitingOther(waiting, tickets, r.id, Ticket(Queued, 0), maxRetries);
        WorkingOther(working, tickets, r.id, Ticket(Queued, 0), maxRetries);
        queue := queue + [r];
        accepted := accepted + 1;
        tickets := tickets[r.id := Ticket(Queued, 0)];
      }
    }

    /** A worker takes the next request; if its URL is marked as being processed, the request waits and is
        queued again later, with its retry count unchanged. */
    method Take(w: nat, urlBusy: bool)
      requires Valid() && queue != [] && w !in working
      modifies this`queue, this`waiting, this`working, this`tickets
      ensures Valid() && queue == old(queue)[1..]
      ensures urlBusy ==> waiting == old(waiting)[old(queue)[0].id := old(queue)[0]] && working == old(working)
      ensures !urlBusy ==> working == old(working)[w := old(queue)[0]] && waiting == old(waiting)
      ensures var r := old(queue)[0];
              tickets == old(tickets)[r.id := if urlBusy then Ticket(Waiting, r.retryCount) else Ticket(InProgress(w), r.retryCount + 1)]
    {
      hide TicketsOk, QueueOk, WaitingOk, WorkingOk;
      var req := queue[0];
      ghost var ticket := if urlBusy then Ticket(Waiting, req.retryCount) else Ticket(InProgress(w), req.retryCount + 1);
      QueuePop(queue, tickets, ticket, maxRetries);
      TicketsMove(tickets, accepted, req.id, ticket, maxRetries);
      queue := queue[1..];
      if urlBusy {
        WaitingAdd(waiting, tickets, req, maxRetries);
        WorkingOther(working, tickets, req.id, ticket, maxRetries);
        waiting := waiting[req.id := req];
      } else {
        WorkingAdd(working, tickets, w, req, maxRetries);
        WaitingOther(waiting, tickets, req.id, ticket, maxRetries);
        working := working[w := req];
      }
      tickets := tickets[req.id := ticket];
    }

    /** The sleeping goroutine sends its request once the queue has room. */
    method Wake(id: nat)
      requires Valid() && id in waiting && |queue| < queueSize
      modifies this`queue, this`waiting, this`tickets
      ensures Valid() && queue == old(queue) + [old(waiting)[id]] && waiting == old(waiting) - {id}
      ensures tickets == old(tickets)[id := Ticket(Queued, old(waiting)[id].retryCount)]
    {
      hide TicketsOk, QueueOk, WaitingOk, WorkingOk;
      ghost var ticket := Ticket(Queued, waiting[id].retryCount);
      WaitingRemove(waiting, tickets, id, ticket, maxRetries);
      TicketsMove(tickets, accepted, id, ticket, maxRetries);
      QueueAppend(queue, tickets, waiting[id], maxRetries);
      WorkingOther(working, tickets, id, ticket, maxRetries);
      queue := queue + [waiting[id]];
      waiting := waiting - {id};
      tickets := tickets[id := ticket];
    }

    /** The worker is done with its fetch. A fetched document is stored unless the reference has a data row
        already, in which case the insert fails; a failure is retried until the limit and then recorded, if the
        error row can be inserted. */
    method Finish(w: nat, fetched: bool, recorded: bool)
      requires Valid() && w in working
      modifies this`working, this`waiting, this`stored, this`errors, this`tickets
      ensures Valid() && working == old(working) - {w}
      ensures var r := old(working)[w];
              var ok := fetched && r.ref !in old(stored);
              && stored == (if ok then old(stored) + {r.ref} else old(stored))
              && waiting == (if !ok && r.retryCount < maxRetries
                             then old(waiting)[r.id := r.(retryCount := r.retryCount + 1)] else old(waiting))
              && errors == (if !ok && r.retryCount >= maxRetries && recorded
                            then old(errors) + [ErrorRow(r.ref, r.retryCount)] else old(errors))
              && tickets == old(tickets)[r.id := Ticket(if ok then Stored else if r.retryCount < maxRetries then Waiting else Failed,
                                                        r.retryCount + 1)]
    {
      hide TicketsOk, QueueOk, WaitingOk, WorkingOk;
      var req := working[w];
      ghost var done := if fetched && req.ref !in stored then Stored else if req.retryCount < maxRetries then Waiting else Failed;
      ghost var ticket := Ticket(done, req.retryCount + 1);
      WorkingRemove(working, tickets, w, ticket, maxRetries);
      TicketsMove(tickets, accepted, req.id, ticket, maxRetries);
      QueueOther(queue, tickets, req.id, ticket, maxRetries);
      working := working - {w};
      if fetched && req.ref !in stored {
        WaitingOther(waiting, tickets, req.id, ticket, maxRetries);
        stored := stored + {req.ref};
      } else if req.retryCount < maxRetries {
        req := req.(retryCount := req.retryCount + 1);
        WaitingAdd(waiting, tickets, req, maxRetries);
        waiting := waiting[req.id := req];
      } else {
        WaitingOther(waiting, tickets, req.id, ticket, maxRetries);
        if recorded { errors := errors + [ErrorRow(req.ref, req.retryCount)]; }
      }
      tickets := tickets[req.id := ticket];
    }

    /** One of the scanner's queries: the first hundred references of its answer are queued as far as there is room,
        none of them stored or recorded as failed; the others are dropped. */
    method QueueAnswer(references: seq<Reference>)
      requires Valid()
      modifies this`queue, this`accepted, this`tickets
      ensures Valid() && Within(old(tickets), tickets) && accepted == old(accepted) + |queue| - |old(queue)|
      ensures queue == old(queue) + Requests(Admitted(Answer(stored, errors, references, maxRetries), queueSize - |old(queue)|), old(accepted))
      ensures forall r | r in queue[|old(queue)|..] :: Unrecorded(r, stored, errors)
    {
      hide TicketsOk, QueueOk, WaitingOk, WorkingOk, Unfetched, Admitted, Requests;
      ghost var room := queueSize - |queue|;
      NothingAdmitted(room, accepted);
      ghost var answer := Answer(stored, errors, references[..0], maxRetries);
      var found := 0;
      for i := 0 to |references|
        invariant Valid() && Within(old(tickets), tickets) && answer == Answer(stored, errors, references[..i], maxRetries)
        invariant found == Min(|answer|, SCAN_LIMIT) && |queue| == |old(queue)| + |Admitted(answer, room)|
        invariant queue == old(queue) + Requests(Admitted(answer, room), old(accepted))
        invariant accepted == old(accepted) + |Admitted(answer, room)|
      {
        assert references[..i + 1][..i] == references[..i];
        if Unfetched(stored, errors, references[i].ref, maxRetries) {
          AdmitNext(answer, references[i], room, old(accepted));
          answer := answer + [references[i]];
          if found < SCAN_LIMIT {
            var _ := QueueMetadata(references[i].ref, references[i].url);
            found := found + 1;
          }
        }
      }
      assert references[..|references|] == references;
      QueuedUnrecorded(stored, errors, references, maxRetries, room, old(accepted));
      assert queue[|old(queue)|..] == Requests(Admitted(answer, room), old(accepted));
    }

    /** scanUnfetchedMetadata: the pool query, and unless that fails the governance query. */
    method ScanUnfetchedMetadata(pools: seq<Reference>, anchors: seq<Reference>, poolsRead: bool, anchorsRead: bool)
      requires Valid()
      modifies this`queue, this`accepted, this`tickets
      ensures Valid() && Within(old(tickets), tickets) && accepted == old(accepted) + |queue| - |old(queue)|
      ensures var room := queueSize - |old(queue)|;
              var first := if poolsRead then Admitted(Answer(stored, errors, pools, maxRetries), room) else [];
              var second := if poolsRead && anchorsRead then
                              Admitted(Answer(stored, errors, anchors, maxRetries), room - |first|) else [];
              queue == old(queue) + Requests(first, old(accepted)) + Requests(second, old(accepted) + |first|)
      ensures forall r | r in queue[|old(queue)|..] :: Unrecorded(r, stored, errors)
    {
      hide TicketsOk, QueueOk, WaitingOk, WorkingOk, Unfetched, Answer, Unrecorded;
      if poolsRead {
        QueueAnswer(pools);
        if anchorsRead {
          ghost var mid := tickets;
          QueueAnswer(anchors);
          WithinTrans(old(tickets), mid, tickets);
        }
      }
    }

    function Current(): View
      reads this
    { View(queue, waiting, working, stored, errors, accepted) }

    lemma Admits(answer: seq<Reference>)
      requires |queue| <= queueSize
      ensures var admitted := Admitted(answer, queueSize - |queue|);
              Queueing(Current(), FirstHundred(answer), queueSize)
              == Current().(queue := queue + Requests(admitted, accepted), accepted := accepted + |admitted|)
              && |Requests(admitted, accepted)| == |admitted|
    {
      QueueingAll(Current(), FirstHundred(answer), queueSize);
      var first := FirstHundred(answer);
      assert first[..Min(|first|, queueSize - |queue|)] == Admitted(answer, queueSize - |queue|);
    }

    /** One step of a worker, a sleeping retry, a client of the queue or the scanner; one that is not possible now
        changes nothing. */
    method Handle(s: Step)
      requires Valid()
      modifies this
      ensures Valid() && Current() == Next(old(Current()), s, maxRetries, queueSize)
    {
      hide TicketsOk, QueueOk, WaitingOk, WorkingOk, Answer, Requests, Admitted, FirstHundred;
      match s
      case Queue(ref, url) => var _ := QueueMetadata(ref, url);
      case Takes(w, urlBusy) => if queue != [] && w !in working { Take(w, urlBusy); }
      case Finishes(w, fetched, recorded) => if w in working { Finish(w, fetched, recorded); }
      case Wakes(id) => if id in waiting && |queue| < queueSize { Wake(id); }
      case Scan(pools, anchors, poolsRead, anchorsRead) => HandleScan(pools, anchors, poolsRead, anchorsRead);
    }

    method HandleScan(pools: seq<Reference>, anchors: seq<Reference>, poolsRead: bool, anchorsRead: bool)
      requires Valid()
      modifies this`queue, this`accepted, this`tickets
      ensures Valid() && Current() == Next(old(Current()), Scan(pools, anchors, poolsRead, anchorsRead), maxRetries, queueSize)
    {
      hide TicketsOk, QueueOk, WaitingOk, WorkingOk, Answer, Requests, Admitted, FirstHundred, Queueing;
      if poolsRead {
        Admits(Answer(stored, errors, pools, maxRetries));
        QueueAnswer(pools);
        if anchorsRead {
          Admits(Answer(stored, errors, anchors, maxRetries));
          QueueAnswer(anchors);
        }
      }
    }
  }

  /** Over any run every request keeps its one place, and a reference once recorded as failed is never unfetched
      again, so no later scan queues it. */
  method Run(f: MetadataFetcher, steps: seq<Step>)
    requires f.Valid()
    modifies f
    ensures f.Valid() && f.Current() == After(old(f.Current()), steps, f.maxRetries, f.queueSize)
    ensures old(f.errors) <= f.errors && old(f.stored) <= f.stored
    ensures forall e | e in old(f.errors) :: !Unfetched(f.stored, f.errors, e.ref, f.maxRetries)
  {
    hide TicketsOk, QueueOk, WaitingOk, WorkingOk, Unfetched, Next;
    for i := 0 to |steps|
      invariant f.Valid() && f.Current() == After(old(f.Current()), steps[..i], f.maxRetries, f.queueSize)
      invariant old(f.errors) <= f.errors && old(f.stored) <= f.stored
    {
      assert steps[..i + 1][..i] == steps[..i];
      RowsStay(f.Current(), steps[i], f.maxRetries, f.queueSize);
      f.Handle(steps[i]);
    }
    assert steps[..|steps|] == steps;
    forall e | e in old(f.errors) ensures !Unfetched(f.stored, f.errors, e.ref, f.maxRetries) {
      var i :| 0 <= i < |old(f.errors)| && old(f.errors)[i] == e;
      assert f.errors[i] == e;
      RecordedNeverUnfetched(f.stored, f.errors, e.ref, f.maxRetries);
    }
  }

  lemma {:induction false} QueueingKeeps(v: View, references: seq<Reference>, size: nat)
    ensures var v' := Queueing(v, references, size); v'.errors == v.errors && v'.stored == v.stored
    decreases |references|
  {
    if references != [] && |v.queue| < size {
      var r := references[0];
      QueueingKeeps(v.(queue := v.queue + [Request(v.accepted, r.ref, r.url, 0)], accepted := v.accepted + 1), references[1..], size);
    }
  }

  /** No step takes back a stored document or a recorded failure. */
  lemma RowsStay(v: View, s: Step, max: int, size: nat)
    ensures v.errors <= Next(v, s, max, size).errors && v.stored <= Next(v, s, max, size).stored
  {
    hide Queueing, Answer, FirstHundred;
    match s
    case Scan(pools, anchors, poolsRead, anchorsRead) =>
      var first := FirstHundred(Answer(v.stored, v.errors, pools, max));
      QueueingKeeps(v, first, size);
      QueueingKeeps(Queueing(v, first, size), FirstHundred(Answer(v.stored, v.errors, anchors, max)), size);
    case _ =>
  }
}
