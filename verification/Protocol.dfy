/**
 Any number of clients of one collection, taking their steps in any order: read a document, write it
 conditionally, count after a miss, insert, delete.  A run is any sequence of actions; an action that
 is not possible changes nothing.  The history records the events that took effect.
 */
module Protocol {
  import opened Text
  import opened Operators
  import opened Versions
  import opened Repo

  /** Where a client stands; indices are positions in the history. */
  datatype Client =
    | Idle
    | Holding(req: Request, stored: Operator, readAt: nat)
    | Missed(req: Request, stored: Operator, readAt: nat, missedAt: nat)
    | Succeeded(req: Request, readAt: nat, wroteAt: nat)
    | Rejected(req: Request, error: Error, stored: Operator, readAt: nat)
    | Refused(req: Request, stored: Operator, readAt: nat)                  // by the usage check
    | NotStored(req: Request, readAt: nat)                                     // nothing to read
    | Raced(req: Request, error: Error, stored: Operator, readAt: nat, missedAt: nat, countedAt: nat)
    | Unanswered(req: Request)                                              // the server failed; written or not

  /** A request that was acknowledged: read at one position, in effect at another. */
  datatype Finished = Finished(client: nat, req: Request, readAt: nat, wroteAt: nat)

  datatype State = State(store: Store, history: seq<Event>, clients: map<nat, Client>, finished: seq<Finished>)

  datatype Action =
    | Insert(id: ObjectId, body: Operator)
    | Delete(id: ObjectId)
    | Read(client: nat, req: Request)
    | Write(client: nat, refused: bool, delivery: Delivery)
    | Count(client: nat, answered: bool)

  function PhaseOf(s: State, client: nat): Client { if client in s.clients then s.clients[client] else Idle }

  function Record(s: State, e: Event, after: Store): State { s.(store := after, history := s.history + [e]) }

  function Become(s: State, client: nat, phase: Client): State { s.(clients := s.clients[client := phase]) }

  function Finish(s: State, client: nat, phase: Client, wroteAt: nat): State
    requires phase.Holding?
  {
    Become(s, client, Succeeded(phase.req, phase.readAt, wroteAt))
      .(finished := s.finished + [Finished(client, phase.req, phase.readAt, wroteAt)])
  }

  /** A client is free when it is not in the middle of a request. */
  predicate Free(phase: Client) { !phase.Holding? && !phase.Missed? }

  function Step(s: State, a: Action): State {
    match a
    case Insert(id, body) =>
      if id in s.store.issued then s
      else Record(s, Inserted(id, body), Store(s.store.docs[id := Fresh(body)], s.store.issued + {id}))
    case Delete(id) =>
      if id !in s.store.docs then s
      else Record(s, Deleted(id), s.store.(docs := s.store.docs - {id}))
    case Read(client, req) =>
      if !Free(PhaseOf(s, client)) then s
      else if req.id in s.store.docs then Become(s, client, Holding(req, s.store.docs[req.id], |s.history|))
      else Become(s, client, NotStored(req, |s.history|))
    case Write(client, refused, delivery) =>
      var phase := PhaseOf(s, client);
      if phase.Holding? then WriteStep(s, client, phase, refused, delivery) else s
    case Count(client, answered) =>
      var phase := PhaseOf(s, client);
      if !phase.Missed? then s
      else if !answered then Become(s, client, Unanswered(phase.req))
      else
        var error := if phase.req.id in s.store.docs then Conflict else NotFound;
        Become(s, client, Raced(phase.req, error, phase.stored, phase.readAt, phase.missedAt, |s.history|))
  }

  /** The write is prepared from the document read and sent with its filter. */
  function WriteStep(s: State, client: nat, phase: Client, refused: bool, delivery: Delivery): State
    requires phase.Holding?
  {
    match PlanOf(phase.req, phase.stored)
    case Err(e) => Become(s, client, Rejected(phase.req, e, phase.stored, phase.readAt))
    case Ok(plan) =>
      if phase.req.RemoveV? && refused then Become(s, client, Refused(phase.req, phase.stored, phase.readAt))
      else if delivery == NotSent then Become(s, client, Unanswered(phase.req))
      else if Matches(plan.filter, s.store.docs) then
        var written := Record(s, Applied(client, phase.req),
                              s.store.(docs := ConditionalWrite(s.store.docs, plan.filter, plan.fields)));
        if delivery == AckLost then Become(written, client, Unanswered(phase.req))
        else Finish(written, client, phase, |s.history|)
      else if delivery == AckLost then Become(s, client, Unanswered(phase.req))
      else Become(s, client, Missed(phase.req, phase.stored, phase.readAt, |s.history|))
  }

  function Run(s: State, actions: seq<Action>): State {
    if actions == [] then s else Step(Run(s, actions[..|actions| - 1]), actions[|actions| - 1])
  }

  function Start(store: Store): State { State(store, [], map[], []) }

  // ---------------------------------------------------------------- the invariant

  /** `stored` is what the document was when the client read it. */
  predicate ReadFrom(s0: Store, history: seq<Event>, req: Request, stored: Operator, readAt: nat) {
    readAt <= |history| && req.id in At(s0, history, readAt).docs && At(s0, history, readAt).docs[req.id] == stored
  }

  /** The client has written nothing since that position. */
  predicate QuietSince(history: seq<Event>, client: nat, from: nat) {
    forall k :: from <= k < |history| && history[k].Applied? ==> history[k].client != client
  }

  predicate Snapshot(s0: Store, history: seq<Event>, client: nat, req: Request, stored: Operator, readAt: nat) {
    ReadFrom(s0, history, req, stored, readAt) && QuietSince(history, client, readAt)
  }

  predicate ClientOk(s0: Store, history: seq<Event>, client: nat, phase: Client) {
    match phase
    case Idle => true
    case Holding(req, stored, readAt) => Snapshot(s0, history, client, req, stored, readAt)
    case Missed(req, stored, readAt, missedAt) => MissedOk(s0, history, client, req, stored, readAt, missedAt)
    case Succeeded(req, readAt, wroteAt) =>
      readAt <= wroteAt < |history| && history[wroteAt] == Applied(client, req)
    case Rejected(req, error, stored, readAt) =>
      Snapshot(s0, history, client, req, stored, readAt) && Sequential(req, stored) == Err(error)
    case Refused(req, stored, readAt) => req.RemoveV? && Snapshot(s0, history, client, req, stored, readAt)
    case NotStored(req, readAt) =>
      readAt <= |history| && req.id !in At(s0, history, readAt).docs && QuietSince(history, client, readAt)
    case Raced(req, error, stored, readAt, missedAt, countedAt) =>
      && MissedOk(s0, history, client, req, stored, readAt, missedAt)
      && missedAt <= countedAt <= |history|
      && error == if req.id in At(s0, history, countedAt).docs then Conflict else NotFound
    case Unanswered(req) => true
  }

  predicate MissedOk(s0: Store, history: seq<Event>, client: nat, req: Request, stored: Operator, readAt: nat, missedAt: nat) {
    && Snapshot(s0, history, client, req, stored, readAt)
    && readAt <= missedAt <= |history|
    && PlanOf(req, stored).Ok?
    && !Matches(PlanOf(req, stored).value.filter, At(s0, history, missedAt).docs)
  }

  predicate AllTookEffect(s0: Store, history: seq<Event>) {
    forall k: nat :: k < |history| ==> TakesEffect(At(s0, history, k), history[k])
  }

  /**
   Every acknowledged request has its own place in the history, after its read, and a client's
   requests come one after the other.
   */
  predicate FinishedInOrder(history: seq<Event>, finished: seq<Finished>) {
    && (forall i :: 0 <= i < |finished| ==>
          && finished[i].readAt <= finished[i].wroteAt < |history|
          && history[finished[i].wroteAt] == Applied(finished[i].client, finished[i].req))
    && (forall i, j :: 0 <= i < j < |finished| ==>
          && finished[i].wroteAt < finished[j].wroteAt
          && (finished[i].client == finished[j].client ==> finished[i].wroteAt < finished[j].readAt))
  }

  predicate Inv(s0: Store, s: State) {
    && ValidStore(s0)
    && FinishedInOrder(s.history, s.finished)
    && s.store == Replay(s0, s.history)
    && AllTookEffect(s0, s.history)
    && (forall client :: client in s.clients ==> ClientOk(s0, s.history, client, s.clients[client]))
  }

  lemma AtPrefix(s0: Store, history: seq<Event>, e: Event)
    ensures forall k: nat :: k <= |history| ==> At(s0, history + [e], k) == At(s0, history, k)
  {
    forall k: nat | k <= |history| ensures At(s0, history + [e], k) == At(s0, history, k) {
      assert (history + [e])[..k] == history[..k];
    }
  }

  lemma AtNow(s0: Store, history: seq<Event>)
    ensures At(s0, history, |history|) == Replay(s0, history)
  {
    assert history[..|history|] == history;
  }

  /** A client keeps its standing when an event of somebody else is recorded. */
  lemma OthersStayOk(s0: Store, history: seq<Event>, e: Event, client: nat, phase: Client)
    requires ClientOk(s0, history, client, phase)
    requires e.Applied? && e.client == client ==> phase.Unanswered?
    ensures ClientOk(s0, history + [e], client, phase)
  {
    hide At, PlanOf, Sequential, Matches;
    AtPrefix(s0, history, e);
  }

  lemma RecordKeepsInv(s0: Store, s: State, e: Event, after: Store)
    requires Inv(s0, s) && TakesEffect(s.store, e) && after == Effect(s.store, e)
    requires forall client :: client in s.clients && e.Applied? && e.client == client ==> s.clients[client].Unanswered?
    ensures Inv(s0, Record(s, e, after))
  {
    hide ClientOk, TakesEffect, Effect, At;
    ReplayOne(s0, s.history, e);
    AtPrefix(s0, s.history, e);
    AtNow(s0, s.history);
    forall client | client in s.clients
      ensures ClientOk(s0, s.history + [e], client, s.clients[client])
    {
      OthersStayOk(s0, s.history, e, client, s.clients[client]);
    }
  }

  lemma BecomeKeepsInv(s0: Store, s: State, client: nat, phase: Client)
    requires Inv(s0, s) && ClientOk(s0, s.history, client, phase)
    ensures Inv(s0, Become(s, client, phase))
  {
    hide ClientOk, AllTookEffect;
  }

  lemma WriteKeepsInv(s0: Store, s: State, client: nat, refused: bool, delivery: Delivery)
    requires Inv(s0, s) && PhaseOf(s, client).Holding?
    ensures Inv(s0, WriteStep(s, client, PhaseOf(s, client), refused, delivery))
  {
    hide PlanOf, Sequential, Matches, AllTookEffect, At, Effect, TakesEffect, ConditionalWrite;
    var phase := PhaseOf(s, client);
    var Holding(req, stored, readAt) := phase;
    assert ClientOk(s0, s.history, client, phase);
    PlanFailsAsSequential(req, stored);
    AtNow(s0, s.history);
    match PlanOf(req, stored) {
      case Err(e) => BecomeKeepsInv(s0, s, client, Rejected(req, e, stored, readAt));
      case Ok(plan) =>
        if (req.RemoveV? && refused) || delivery == NotSent {
        } else if Matches(plan.filter, s.store.docs) {
          AcceptedKeepsInv(s0, s, client);
        }
    }
  }

  /** The write that went through: recorded, and its client moved on. */
  lemma AcceptedKeepsInv(s0: Store, s: State, client: nat)
    requires Inv(s0, s) && PhaseOf(s, client).Holding?
    requires PlanOf(PhaseOf(s, client).req, PhaseOf(s, client).stored).Ok?
    requires Matches(PlanOf(PhaseOf(s, client).req, PhaseOf(s, client).stored).value.filter, s.store.docs)
    ensures var phase := PhaseOf(s, client);
            var plan := PlanOf(phase.req, phase.stored).value;
            var r := Record(s, Applied(client, phase.req),
                            s.store.(docs := ConditionalWrite(s.store.docs, plan.filter, plan.fields)));
            && Inv(s0, Become(r, client, Unanswered(phase.req)))
            && Inv(s0, Finish(r, client, phase, |s.history|))
  {
    hide PlanOf, Sequential, Matches, AllTookEffect, Effect, TakesEffect, ConditionalWrite;
    var phase := PhaseOf(s, client);
    var Holding(req, stored, readAt) := phase;
    assert ClientOk(s0, s.history, client, phase);
    AtNow(s0, s.history);
    AtLater(s0, s.history, readAt, |s.history|);
    ReplayKeepsStoreValid(s0, s.history[..readAt]);
    LateWriteIsTheRequest(At(s0, s.history, readAt), s.history[readAt..|s.history|], client, req);
    var e := Applied(client, req);
    var bystanders := Become(s, client, Unanswered(req));
    BecomeKeepsInv(s0, s, client, Unanswered(req));
    RecordKeepsInv(s0, bystanders, e, Effect(s.store, e));
    var r := Record(bystanders, e, Effect(s.store, e));
    BecomeKeepsInv(s0, r, client, Succeeded(req, readAt, |s.history|));
    assert r.clients[client := Unanswered(req)] == r.clients;
    assert r.clients[client := Succeeded(req, readAt, |s.history|)] == s.clients[client := Succeeded(req, readAt, |s.history|)];
    OneMoreFinished(s.history, s.finished, client, req, readAt);
  }

  lemma OneMoreFinished(history: seq<Event>, finished: seq<Finished>, client: nat, req: Request, readAt: nat)
    requires FinishedInOrder(history, finished) && readAt <= |history| && QuietSince(history, client, readAt)
    ensures FinishedInOrder(history + [Applied(client, req)], finished + [Finished(client, req, readAt, |history|)])
  {
    forall i | 0 <= i < |finished| && finished[i].client == client ensures finished[i].wroteAt < readAt {
      assert history[finished[i].wroteAt].client == client;
    }
  }

  lemma StepKeepsInv(s0: Store, s: State, a: Action)
    requires Inv(s0, s)
    ensures Inv(s0, Step(s, a))
  {
    hide WriteStep, AllTookEffect, PlanOf, Matches, Sequential;
    AtNow(s0, s.history);
    match a {
      case Insert(id, body) =>
        if id !in s.store.issued {
          RecordKeepsInv(s0, s, Inserted(id, body), Effect(s.store, Inserted(id, body)));
        }
      case Delete(id) =>
        if id in s.store.docs {
          RecordKeepsInv(s0, s, Deleted(id), Effect(s.store, Deleted(id)));
        }
      case Read(client, req) =>
        if Free(PhaseOf(s, client)) {
          if req.id in s.store.docs {
            BecomeKeepsInv(s0, s, client, Holding(req, s.store.docs[req.id], |s.history|));
          } else {
            BecomeKeepsInv(s0, s, client, NotStored(req, |s.history|));
          }
        }
      case Write(client, refused, delivery) =>
        if PhaseOf(s, client).Holding? {
          WriteKeepsInv(s0, s, client, refused, delivery);
        }
      case Count(client, answered) =>
        var phase := PhaseOf(s, client);
        if phase.Missed? {
          assert ClientOk(s0, s.history, client, phase);
        }
    }
  }

  lemma {:induction false} RunKeepsInv(s0: Store, actions: seq<Action>)
    requires ValidStore(s0)
    ensures Inv(s0, Run(Start(s0), actions))
  {
    if actions == [] {
    } else {
      RunKeepsInv(s0, actions[..|actions| - 1]);
      StepKeepsInv(s0, Run(Start(s0), actions[..|actions| - 1]), actions[|actions| - 1]);
    }
  }

  lemma {:induction false} HistoryOnlyGrows(s0: State, before: seq<Action>, after: seq<Action>)
    ensures Run(s0, before).history <= Run(s0, before + after).history
  {
    if after == [] {
      assert before + after == before;
    } else {
      HistoryOnlyGrows(s0, before, after[..|after| - 1]);
      assert (before + after)[..|before + after| - 1] == before + after[..|after| - 1];
      OneStepGrows(Run(s0, before + after[..|after| - 1]), after[|after| - 1]);
    }
  }

  lemma OneStepGrows(s: State, a: Action)
    ensures s.history <= Step(s, a).history
  {
    hide PlanOf, Matches, ConditionalWrite;
  }

  // ---------------------------------------------------------------- what holds of every run

  /** The event at `k` is this client's request, and the store moves by its sequential meaning. */
  predicate DoesItsRequest(s0: Store, history: seq<Event>, k: nat, client: nat, req: Request) {
    && k < |history| && history[k] == Applied(client, req)
    && req.id in At(s0, history, k).docs && req.id in At(s0, history, k + 1).docs
    && Sequential(req, At(s0, history, k).docs[req.id]) == Ok(At(s0, history, k + 1).docs[req.id])
  }

  lemma EventDoesItsRequest(s0: Store, s: State, k: nat)
    requires Inv(s0, s) && k < |s.history| && s.history[k].Applied?
    ensures DoesItsRequest(s0, s.history, k, s.history[k].client, s.history[k].req)
  {
    hide Sequential, ClientOk;
    assert s.history[..k + 1] == s.history[..k] + [s.history[k]];
    ReplayOne(s0, s.history[..k], s.history[k]);
    assert TakesEffect(At(s0, s.history, k), s.history[k]);
  }

  /**
   The stored documents, written through filters and field sets computed from older reads, are those
   of the sequential requests in the order of the history.  Every request that was ever acknowledged
   has its own place there, after its read and after that client's earlier requests, and does at that
   place what the request does to the document as it is then.
   */
  lemma RunsAreLinearizable(s0: Store, actions: seq<Action>)
    requires ValidStore(s0)
    ensures var s := Run(Start(s0), actions);
            && s.store == Replay(s0, s.history)
            && (forall k: nat :: k < |s.history| ==> TakesEffect(At(s0, s.history, k), s.history[k]))
            && (forall i :: 0 <= i < |s.finished| ==>
                  var Finished(client, req, readAt, wroteAt) := s.finished[i];
                  readAt <= wroteAt && DoesItsRequest(s0, s.history, wroteAt, client, req))
            && (forall i, j :: 0 <= i < j < |s.finished| ==>
                  && s.finished[i].wroteAt < s.finished[j].wroteAt
                  && (s.finished[i].client == s.finished[j].client ==> s.finished[i].wroteAt < s.finished[j].readAt))
  {
    hide Step, DoesItsRequest, TakesEffect;
    RunKeepsInv(s0, actions);
    var s := Run(Start(s0), actions);
    forall i | 0 <= i < |s.finished|
      ensures s.finished[i].readAt <= s.finished[i].wroteAt
      ensures DoesItsRequest(s0, s.history, s.finished[i].wroteAt, s.finished[i].client, s.finished[i].req)
    {
      EventDoesItsRequest(s0, s, s.finished[i].wroteAt);
    }
  }

  /** What has been acknowledged stays on record. */
  lemma {:induction false} NothingIsForgotten(s: State, before: seq<Action>, after: seq<Action>)
    ensures Run(s, before).finished <= Run(s, before + after).finished
  {
    hide Step;
    if after == [] {
      assert before + after == before;
    } else {
      var n := |after| - 1;
      NothingIsForgotten(s, before, after[..n]);
      assert (before + after)[..|before + after| - 1] == before + after[..n];
      OneStepForgetsNothing(Run(s, before + after[..n]), after[n]);
    }
  }

  lemma OneStepForgetsNothing(s: State, a: Action)
    ensures s.finished <= Step(s, a).finished
  {
    hide PlanOf, Matches, ConditionalWrite;
  }

  /** An acknowledged write is put on record at once. */
  lemma SuccessIsRecorded(s: State, client: nat)
    requires PhaseOf(s, client).Holding?
    requires PhaseOf(Step(s, Write(client, false, Acknowledged)), client).Succeeded?
    ensures var phase := PhaseOf(s, client);
            Step(s, Write(client, false, Acknowledged)).finished ==
            s.finished + [Finished(client, phase.req, phase.readAt, |s.history|)]
  {
    hide PlanOf, Matches, ConditionalWrite;
  }

  /** Whatever this client still holds was read at `h` or later, and so was all it got acknowledged since. */
  predicate ReadSince(s: State, client: nat, h: nat, n: nat) {
    && h <= |s.history| && n <= |s.finished|
    && (PhaseOf(s, client).Holding? ==> h <= PhaseOf(s, client).readAt)
    && forall j :: n <= j < |s.finished| && s.finished[j].client == client ==> h <= s.finished[j].readAt
  }

  lemma StepKeepsReadSince(s: State, a: Action, client: nat, h: nat, n: nat)
    requires ReadSince(s, client, h, n)
    ensures ReadSince(Step(s, a), client, h, n)
  {
    hide PlanOf, Matches, ConditionalWrite;
  }

  lemma {:induction false} RunKeepsReadSince(s: State, before: seq<Action>, after: seq<Action>, client: nat, h: nat, n: nat)
    requires ReadSince(Run(s, before), client, h, n)
    ensures ReadSince(Run(s, before + after), client, h, n)
    decreases |after|
  {
    hide Step, ReadSince;
    if after == [] {
      assert before + after == before;
    } else {
      var k := |after| - 1;
      RunKeepsReadSince(s, before, after[..k], client, h, n);
      assert (before + after)[..|before + after| - 1] == before + after[..k];
      StepKeepsReadSince(Run(s, before + after[..k]), after[k], client, h, n);
    }
  }

  /** All of `early` took effect before anything this client has got acknowledged since was read. */
  predicate ComesAfter(early: State, late: State, client: nat) {
    forall i, j :: 0 <= i < |early.finished| <= j < |late.finished| && late.finished[j].client == client ==>
      late.finished[i].wroteAt < late.finished[j].readAt <= late.finished[j].wroteAt
  }

  /**
   The places in the history follow real time: whatever any client had acknowledged before this client
   read took effect before that read, and so before whatever this client has acknowledged from then on.
   */
  lemma PlacesFollowRealTime(s0: Store, before: seq<Action>, client: nat, req: Request, after: seq<Action>)
    requires ValidStore(s0) && Free(PhaseOf(Run(Start(s0), before), client))
    ensures var early := Run(Start(s0), before);
            var late := Run(Start(s0), before + [Read(client, req)] + after);
            early.finished <= late.finished && ComesAfter(early, late, client)
  {
    hide *;
    var read := [Read(client, req)];
    assert before + (read + after) == before + read + after;
    var early, late := Run(Start(s0), before), Run(Start(s0), before + read + after);
    ReadComesNext(s0, before, client, req);
    RunKeepsReadSince(Start(s0), before + read, after, client, |early.history|, |early.finished|);
    NothingIsForgotten(Start(s0), before, read + after);
    RunsFinishInOrder(s0, before);
    RunsFinishInOrder(s0, before + read + after);
    PlacesAfter(early, late, client);
  }

  lemma RunsFinishInOrder(s0: Store, actions: seq<Action>)
    requires ValidStore(s0)
    ensures var s := Run(Start(s0), actions); FinishedInOrder(s.history, s.finished)
  {
    hide Run, FinishedInOrder, AllTookEffect, ClientOk;
    RunKeepsInv(s0, actions);
  }

  lemma ReadComesNext(s0: Store, before: seq<Action>, client: nat, req: Request)
    requires Free(PhaseOf(Run(Start(s0), before), client))
    ensures var early := Run(Start(s0), before);
            ReadSince(Run(Start(s0), before + [Read(client, req)]), client, |early.history|, |early.finished|)
  {
    hide Step, ReadSince;
    assert (before + [Read(client, req)])[..|before|] == before;
    ReadStarts(Run(Start(s0), before), client, req);
  }

  lemma ReadStarts(s: State, client: nat, req: Request)
    requires Free(PhaseOf(s, client))
    ensures ReadSince(Step(s, Read(client, req)), client, |s.history|, |s.finished|)
  {
  }

  lemma PlacesAfter(early: State, late: State, client: nat)
    requires FinishedInOrder(early.history, early.finished) && FinishedInOrder(late.history, late.finished)
    requires early.finished <= late.finished && ReadSince(late, client, |early.history|, |early.finished|)
    ensures ComesAfter(early, late, client)
  {
  }

  /**
   A request that was rejected or refused wrote nothing; its error is the one the request has on the
   document at the moment it was read.
   */
  lemma RejectionsAreSequential(s0: Store, actions: seq<Action>, client: nat)
    requires ValidStore(s0)
    requires PhaseOf(Run(Start(s0), actions), client).Rejected?
    ensures var s := Run(Start(s0), actions);
            var Rejected(req, error, stored, readAt) := PhaseOf(s, client);
            && QuietSince(s.history, client, readAt)
            && readAt <= |s.history| && req.id in At(s0, s.history, readAt).docs
            && Sequential(req, At(s0, s.history, readAt).docs[req.id]) == Err(error)
  {
    hide Sequential, Step, At;
    RunKeepsInv(s0, actions);
    var s := Run(Start(s0), actions);
    assert ClientOk(s0, s.history, client, s.clients[client]);
  }

  /**
   A conflict is reported only if another client's request on the document went through between this
   client's read and its write; this client's own request did not.
   */
  lemma ConflictMeansRace(s0: Store, actions: seq<Action>, client: nat)
    requires ValidStore(s0)
    requires PhaseOf(Run(Start(s0), actions), client).Raced?
    requires PhaseOf(Run(Start(s0), actions), client).error == Conflict
    ensures var s := Run(Start(s0), actions);
            var phase := PhaseOf(s, client);
            && QuietSince(s.history, client, phase.readAt)
            && exists k: nat ::
                 && phase.readAt <= k < phase.missedAt && k < |s.history|
                 && s.history[k].Applied? && s.history[k].client != client && s.history[k].req.id == phase.req.id
                 && TakesEffect(At(s0, s.history, k), s.history[k])
  {
    hide Sequential, Step, PlanOf, Matches;
    RunKeepsInv(s0, actions);
    var s := Run(Start(s0), actions);
    var phase := PhaseOf(s, client);
    var h := s.history;
    assert ClientOk(s0, h, client, phase);
    PlanErrors(phase.req, phase.stored);
    PresentAtCountMeansPresentBefore(s0, h, phase.missedAt, phase.countedAt, phase.req.id, phase.readAt);
    var atRead := At(s0, h, phase.readAt);
    AtLater(s0, h, phase.readAt, phase.missedAt);
    ReplayKeepsStoreValid(s0, h[..phase.readAt]);
    MissMeansChange(atRead, h[phase.readAt..phase.missedAt], phase.req);
    ChangeHasWriter(s0, h, phase.readAt, phase.missedAt, phase.req.id);
  }

  lemma PresentAtCountMeansPresentBefore(s0: Store, history: seq<Event>, j: nat, k: nat, id: ObjectId, readAt: nat)
    requires ValidStore(s0) && readAt <= j <= k <= |history|
    requires id in At(s0, history, readAt).docs && id in At(s0, history, k).docs
    ensures id in At(s0, history, j).docs
  {
    ReplayKeepsStoreValid(s0, history[..readAt]);
    AtLater(s0, history, readAt, j);
    ReplayKeepsStoreValid(At(s0, history, readAt), history[readAt..j]);
    AtLater(s0, history, j, k);
    RevisionsGrow(At(s0, history, j), history[j..k], id);
  }

  /** Not-found after a miss is reported only if the document is gone, and it stays gone. */
  lemma NotFoundMeansGone(s0: Store, actions: seq<Action>, client: nat)
    requires ValidStore(s0)
    requires PhaseOf(Run(Start(s0), actions), client).Raced?
    requires PhaseOf(Run(Start(s0), actions), client).error != Conflict
    ensures PhaseOf(Run(Start(s0), actions), client).error == NotFound
    ensures PhaseOf(Run(Start(s0), actions), client).req.id !in Run(Start(s0), actions).store.docs
    ensures PhaseOf(Run(Start(s0), actions), client).req.id in Run(Start(s0), actions).store.issued
  {
    hide Sequential, Step, PlanOf, Matches;
    RunKeepsInv(s0, actions);
    var s := Run(Start(s0), actions);
    var phase := PhaseOf(s, client);
    var h, id := s.history, phase.req.id;
    assert ClientOk(s0, h, client, phase);
    AtNow(s0, h);
    ReplayKeepsStoreValid(s0, h[..phase.readAt]);
    AtLater(s0, h, phase.readAt, phase.countedAt);
    ReplayKeepsStoreValid(At(s0, h, phase.readAt), h[phase.readAt..phase.countedAt]);
    AtLater(s0, h, phase.countedAt, |h|);
    ReplayKeepsStoreValid(At(s0, h, phase.countedAt), h[phase.countedAt..]);
    RevisionsGrow(At(s0, h, phase.countedAt), h[phase.countedAt..], id);
    assert h[phase.countedAt..|h|] == h[phase.countedAt..];
  }

  /** An id once issued and gone never names a document again. */
  lemma GoneStaysGone(s0: Store, before: seq<Action>, after: seq<Action>, id: ObjectId)
    requires ValidStore(s0)
    requires id in Run(Start(s0), before).store.issued && id !in Run(Start(s0), before).store.docs
    ensures id !in Run(Start(s0), before + after).store.docs
  {
    var j, h := SplitRun(s0, before, after);
    ReplayKeepsStoreValid(s0, h[..j]);
    RevisionsGrow(At(s0, h, j), h[j..], id);
    AtLater(s0, h, j, |h|);
    assert h[j..|h|] == h[j..];
  }

  /** The two moments of a run as two positions in one history. */
  lemma SplitRun(s0: Store, before: seq<Action>, after: seq<Action>) returns (j: nat, h: seq<Event>)
    requires ValidStore(s0)
    ensures h == Run(Start(s0), before + after).history && j <= |h|
    ensures Run(Start(s0), before).store == At(s0, h, j)
    ensures Run(Start(s0), before + after).store == At(s0, h, |h|)
  {
    hide Step;
    RunKeepsInv(s0, before);
    RunKeepsInv(s0, before + after);
    HistoryOnlyGrows(Start(s0), before, after);
    h := Run(Start(s0), before + after).history;
    j := |Run(Start(s0), before).history|;
    assert h[..j] == Run(Start(s0), before).history;
    AtNow(s0, h);
  }

  /** From well-formed documents every run leads to well-formed documents. */
  lemma ReachableDocumentsAreWellFormed(s0: Store, actions: seq<Action>)
    requires ValidStore(s0) && AllWellFormed(s0.docs)
    ensures AllWellFormed(Run(Start(s0), actions).store.docs)
  {
    hide Step, AllWellFormed;
    RunKeepsInv(s0, actions);
    HistoryKeepsWellFormed(s0, Run(Start(s0), actions).history);
  }

  /** Once an operator has a version, it has one until it is deleted, whatever races. */
  lemma VersionsStayInRuns(s0: Store, before: seq<Action>, after: seq<Action>, id: ObjectId)
    requires ValidStore(s0) && AllWellFormed(s0.docs)
    requires id in Run(Start(s0), before).store.docs && id in Run(Start(s0), before + after).store.docs
    requires Run(Start(s0), before).store.docs[id].versions != []
    ensures Run(Start(s0), before + after).store.docs[id].versions != []
  {
    hide Step, AllWellFormed;
    var j, h := SplitRun(s0, before, after);
    VersionsStay(s0, h, j, |h|, id);
  }

  /** Two readers that hold the same id and revision hold the same document, whenever they read. */
  lemma ReadersAgree(s0: Store, actions: seq<Action>, c: nat, d: nat)
    requires ValidStore(s0)
    requires PhaseOf(Run(Start(s0), actions), c).Holding? && PhaseOf(Run(Start(s0), actions), d).Holding?
    requires PhaseOf(Run(Start(s0), actions), c).req.id == PhaseOf(Run(Start(s0), actions), d).req.id
    requires PhaseOf(Run(Start(s0), actions), c).stored.revision == PhaseOf(Run(Start(s0), actions), d).stored.revision
    ensures PhaseOf(Run(Start(s0), actions), c).stored == PhaseOf(Run(Start(s0), actions), d).stored
  {
    hide Step, At;
    RunKeepsInv(s0, actions);
    var s := Run(Start(s0), actions);
    var p, q := PhaseOf(s, c), PhaseOf(s, d);
    assert ClientOk(s0, s.history, c, p) && ClientOk(s0, s.history, d, q);
    if p.readAt <= q.readAt {
      RevisionDeterminesContent(s0, s.history, p.readAt, q.readAt, p.req.id);
    } else {
      RevisionDeterminesContent(s0, s.history, q.readAt, p.readAt, p.req.id);
    }
  }

  /**
   When a delivered write goes through: an update prepared without versions exactly while the document
   still has none, whoever wrote since; everything else exactly while the document is the one read.
   */
  lemma WriteSucceedsExactlyWhen(s0: Store, actions: seq<Action>, client: nat)
    requires ValidStore(s0)
    requires PhaseOf(Run(Start(s0), actions), client).Holding?
    requires var phase := PhaseOf(Run(Start(s0), actions), client); PlanOf(phase.req, phase.stored).Ok?
    ensures var s := Run(Start(s0), actions);
            var Holding(req, stored, _) := PhaseOf(s, client);
            PhaseOf(Step(s, Write(client, false, Acknowledged)), client).Succeeded? <==>
              && req.id in s.store.docs
              && if req.Update? && stored.versions == [] then s.store.docs[req.id].versions == []
                 else s.store.docs[req.id] == stored
  {
    hide ConditionalWrite, Sequential, Put, RemoveVersion, CheckTopLevel, BodyFields, NewestFields, Run;
    RunKeepsInv(s0, actions);
    var s := Run(Start(s0), actions);
    var phase := PhaseOf(s, client);
    assert ClientOk(s0, s.history, client, phase);
    AtNow(s0, s.history);
    if phase.req.id in s.store.docs && s.store.docs[phase.req.id].revision == phase.stored.revision {
      RevisionDeterminesContent(s0, s.history, phase.readAt, |s.history|, phase.req.id);
    }
  }

  // ---------------------------------------------------------------- what a client left alone gets

  /**
   A client that nobody disturbs reads, writes and has exactly what the request does to the document:
   its new content, its error, or not-found, and nothing else changes.
   */
  lemma UndisturbedRequest(s: State, client: nat, req: Request)
    requires Free(PhaseOf(s, client))
    ensures var t := Step(Step(s, Read(client, req)), Write(client, false, Acknowledged));
            var phase := PhaseOf(t, client);
            && t.store.issued == s.store.issued
            && if req.id !in s.store.docs then phase.NotStored? && phase.req == req && t.store == s.store
               else match Sequential(req, s.store.docs[req.id])
                    case Ok(doc) => phase.Succeeded? && phase.req == req && t.store.docs == s.store.docs[req.id := doc]
                    case Err(e) => phase.Rejected? && phase.req == req && phase.error == e && t.store == s.store
  {
    hide PlanOf, Sequential;
    if req.id in s.store.docs {
      var doc := s.store.docs[req.id];
      PlanFailsAsSequential(req, doc);
      if PlanOf(req, doc).Ok? {
        UnchangedStillMatches(req, s.store.docs);
        PlanMeansSequential(req, doc, s.store.docs);
      }
    }
  }

  lemma UnchangedStillMatches(req: Request, docs: map<ObjectId, Operator>)
    requires req.id in docs && PlanOf(req, docs[req.id]).Ok?
    ensures Matches(PlanOf(req, docs[req.id]).value.filter, docs)
  {
    hide Put, RemoveVersion, CheckTopLevel, Newest;
    EmptyHasNoNewest(docs[req.id].versions);
  }

  lemma EmptyHasNoNewest(versions: seq<OperatorVersion>)
    ensures Newest(versions) == None <==> versions == []
  {
  }

  /** A write that misses changes nothing, and the count tells a changed document from one that is gone. */
  lemma MissedWriteLearnsWhy(s: State, client: nat)
    requires PhaseOf(s, client).Holding?
    requires PlanOf(PhaseOf(s, client).req, PhaseOf(s, client).stored).Ok?
    requires !Matches(PlanOf(PhaseOf(s, client).req, PhaseOf(s, client).stored).value.filter, s.store.docs)
    ensures var t := Step(Step(s, Write(client, false, Acknowledged)), Count(client, true));
            var phase := PhaseOf(t, client);
            && t.store == s.store && t.finished == s.finished && phase.Raced?
            && phase.error == if PhaseOf(s, client).req.id in s.store.docs then Conflict else NotFound
  {
    hide PlanOf, Matches;
  }

  /** A write whose answer is lost leaves the store as an answered one does; one that was not sent leaves it alone. */
  lemma LostAnswerWritesAlike(s: State, client: nat, refused: bool)
    ensures Step(s, Write(client, refused, AckLost)).store == Step(s, Write(client, refused, Acknowledged)).store
    ensures Step(s, Write(client, refused, NotSent)).store == s.store
  {
    hide PlanOf, Matches, ConditionalWrite;
  }

  /** Inserted, updated and deleted by clients that do not meet: what is stored at each moment. */
  lemma LifeOfAnOperator(s: State, id: ObjectId, body: Operator, client: nat, update: Operator)
    requires id !in s.store.issued && Free(PhaseOf(s, client))
    ensures var inserted := Step(s, Insert(id, body));
            var updated := Step(Step(inserted, Read(client, Update(id, update))), Write(client, false, Acknowledged));
            var deleted := Step(updated, Delete(id));
            && inserted.store.docs.Keys == s.store.docs.Keys + {id}
            && inserted.store.docs[id] == body.(revision := Some(1), versions := [])
            && id in updated.store.docs
            && updated.store.docs[id] == update.(userId := body.userId, revision := Some(2), versions := [])
            && deleted.store.docs == s.store.docs - {id} && deleted.store.issued == s.store.issued + {id}
  {
    hide PlanOf, WriteStep;
    var inserted := Step(s, Insert(id, body));
    UndisturbedRequest(inserted, client, Update(id, update));
    UpdateIsRefusedExactlyWhen(id, update, inserted.store.docs[id]);
    UpdateWritesTheBody(id, update, inserted.store.docs[id]);
    assert s.store.docs - {id} == s.store.docs[id := update] - {id};
  }
}
