/**
 The optimistic writes of `pkg/db/repo.go`: read a document, compute the new one, write it only if
 the stored document still matches a filter.  First the values and the sequential meaning of a
 request, then the repository as an object, whose methods run amid the writes of other clients.
 */
module Repo {
  import opened Text
  import opened Operators
  import opened Versions

  type ObjectId = string

  // ---------------------------------------------------------------- update documents and filters

  datatype Field =
    Name | Description | Image | Cost | DeploymentType | Pub | Inputs | Outputs | ConfigValues | VersionsField

  datatype FieldValue =
    | Str(text: string)
    | Amount(amount: Option<int>)
    | Flag(flag: bool)
    | PortList(ports: Ports)
    | VersionList(versions: seq<OperatorVersion>)

  type Fields = map<Field, FieldValue>

  function TextOf(fields: Fields, f: Field, otherwise: string): string {
    if f in fields && fields[f].Str? then fields[f].text else otherwise
  }

  function PortsOf(fields: Fields, f: Field, otherwise: Ports): Ports {
    if f in fields && fields[f].PortList? then fields[f].ports else otherwise
  }

  /** The document after `$set`. */
  function Overwrite(doc: Operator, fields: Fields): Operator {
    Operator(
      TextOf(fields, Name, doc.name),
      TextOf(fields, Image, doc.image),
      TextOf(fields, Description, doc.description),
      TextOf(fields, DeploymentType, doc.deploymentType),
      if Cost in fields && fields[Cost].Amount? then fields[Cost].amount else doc.cost,
      doc.userId,
      if Pub in fields && fields[Pub].Flag? then fields[Pub].flag else doc.pub,
      PortsOf(fields, ConfigValues, doc.config),
      PortsOf(fields, Inputs, doc.inputs),
      PortsOf(fields, Outputs, doc.outputs),
      doc.revision,
      if VersionsField in fields && fields[VersionsField].VersionList? then fields[VersionsField].versions else doc.versions)
  }

  /** `$inc` by one; a missing counter becomes 1. */
  function NextRevision(r: Option<int>): Option<int> { if r.None? then Some(1) else Some(r.value + 1) }

  function Written(doc: Operator, fields: Fields): Operator {
    Overwrite(doc, fields).(revision := NextRevision(doc.revision))
  }

  datatype Filter =
    | ByRevision(id: ObjectId, revision: Option<int>)  // the revision read, None also for a missing one
    | NoVersions(id: ObjectId)                         // no element 0 in `versions`

  predicate Matches(filter: Filter, docs: map<ObjectId, Operator>) {
    && filter.id in docs
    && match filter
       case ByRevision(id, revision) => docs[id].revision == revision
       case NoVersions(id) => docs[id].versions == []
  }

  function ConditionalWrite(docs: map<ObjectId, Operator>, filter: Filter, fields: Fields): map<ObjectId, Operator> {
    if Matches(filter, docs) then docs[filter.id := Written(docs[filter.id], fields)] else docs
  }

  function BodyFields(body: Operator): Fields {
    map[Name := Str(body.name),
        Description := Str(body.description),
        Image := Str(body.image),
        Cost := Amount(body.cost),
        DeploymentType := Str(body.deploymentType),
        Pub := Flag(body.pub),
        Inputs := PortList(body.inputs),
        Outputs := PortList(body.outputs),
        ConfigValues := PortList(body.config)]
  }

  function NewestFields(newest: OperatorVersion): Fields {
    map[Image := Str(newest.image),
        Inputs := PortList(newest.inputs),
        Outputs := PortList(newest.outputs),
        ConfigValues := PortList(newest.config)]
  }

  // ---------------------------------------------------------------- requests

  datatype Request =
    | Update(id: ObjectId, body: Operator)
    | PutV(id: ObjectId, version: OperatorVersion)
    | RemoveV(id: ObjectId, tag: string)

  datatype Plan = Plan(filter: Filter, fields: Fields)

  /** The write that a request prepares from the document it read. */
  function PlanOf(req: Request, stored: Operator): Result<Plan> {
    match req
    case Update(id, body) =>
      (match Newest(stored.versions)
       case Some(newest) =>
         if CheckTopLevel(body, newest)
         then Ok(Plan(ByRevision(id, stored.revision), BodyFields(body) + NewestFields(newest)))
         else Err(InvalidInput)
       case None => Ok(Plan(NoVersions(id), BodyFields(body))))
    case PutV(id, version) =>
      (match Put(stored.versions, version)
       case Ok(answer) => Ok(VersionsPlan(id, stored, answer.versions))
       case Err(e) => Err(e))
    case RemoveV(id, tag) =>
      (match RemoveVersion(stored.versions, tag)
       case Ok(answer) => Ok(VersionsPlan(id, stored, answer.versions))
       case Err(e) => Err(e))
  }

  /** A list about to be written has an entry, so its newest one always reaches the top level. */
  function VersionsPlan(id: ObjectId, stored: Operator, versions: seq<OperatorVersion>): Plan {
    Plan(ByRevision(id, stored.revision),
         map[VersionsField := VersionList(versions)] +
         match Newest(versions)
         case Some(newest) => NewestFields(newest)
         case None => map[])
  }

  // ---------------------------------------------------------------- the sequential meaning

  function WithTopLevel(doc: Operator, v: OperatorVersion): Operator {
    doc.(image := v.image, inputs := v.inputs, outputs := v.outputs, config := v.config)
  }

  function WithVersions(doc: Operator, versions: seq<OperatorVersion>): Operator {
    match Newest(versions)
    case Some(newest) => WithTopLevel(doc.(versions := versions), newest)
    case None => doc.(versions := versions)
  }

  function WithMetadata(doc: Operator, body: Operator): Operator {
    doc.(name := body.name, description := body.description, cost := body.cost,
         deploymentType := body.deploymentType, pub := body.pub)
  }

  /** What a request does to a document when nobody else is around. */
  function Sequential(req: Request, doc: Operator): Result<Operator> {
    match req
    case Update(_, body) =>
      if doc.versions == [] then
        Ok(WithMetadata(doc, body).(image := body.image, inputs := body.inputs, outputs := body.outputs,
                                    config := body.config, revision := NextRevision(doc.revision)))
      else
        var newest := Newest(doc.versions).value;
        if CheckTopLevel(body, newest)
        then Ok(WithTopLevel(WithMetadata(doc, body), newest).(revision := NextRevision(doc.revision)))
        else Err(InvalidInput)
    case PutV(_, version) =>
      (match Put(doc.versions, version)
       case Ok(answer) => Ok(WithVersions(doc, answer.versions).(revision := NextRevision(doc.revision)))
       case Err(e) => Err(e))
    case RemoveV(_, tag) =>
      (match RemoveVersion(doc.versions, tag)
       case Ok(answer) => Ok(WithVersions(doc, answer.versions).(revision := NextRevision(doc.revision)))
       case Err(e) => Err(e))
  }

  /**
   An update that goes through takes name, description, cost, deployment type and visibility from
   the body and keeps owner and versions; the top level is the body's while there are no versions
   and the newest version's otherwise.
   */
  lemma UpdateWritesTheBody(id: ObjectId, body: Operator, doc: Operator)
    requires Sequential(Update(id, body), doc).Ok?
    ensures var r := Sequential(Update(id, body), doc).value;
            && r.name == body.name && r.description == body.description && r.cost == body.cost
            && r.deploymentType == body.deploymentType && r.pub == body.pub
            && r.userId == doc.userId && r.versions == doc.versions
            && r.revision == Some(if doc.revision.Some? then doc.revision.value + 1 else 1)
            && (doc.versions == [] ==>
                  && r.image == body.image && r.inputs == body.inputs
                  && r.outputs == body.outputs && r.config == body.config)
            && (doc.versions != [] ==>
                  var newest := Newest(doc.versions).value;
                  && r.image == newest.image && r.inputs == newest.inputs
                  && r.outputs == newest.outputs && r.config == newest.config)
  {
    hide Newest, CheckTopLevel;
  }

  /**
   An update of an operator with versions is refused exactly when it asks for another image or sends
   a list other than the newest version's; of an operator without versions it is never refused.
   */
  lemma UpdateIsRefusedExactlyWhen(id: ObjectId, body: Operator, doc: Operator)
    ensures Sequential(Update(id, body), doc).Err? ==> Sequential(Update(id, body), doc) == Err(InvalidInput)
    ensures doc.versions == [] ==> Sequential(Update(id, body), doc).Ok?
    ensures doc.versions != [] ==>
              var newest := Newest(doc.versions).value;
              Sequential(Update(id, body), doc).Err? <==>
                || (body.image != "" && body.image != newest.image)
                || (body.inputs.Present? && body.inputs.values != if newest.inputs.Present? then newest.inputs.values else [])
                || (body.outputs.Present? && body.outputs.values != if newest.outputs.Present? then newest.outputs.values else [])
                || (body.config.Present? && body.config.values != if newest.config.Present? then newest.config.values else [])
  {
    hide Newest;
  }

  /**
   A put or a removal that goes through changes the list, moves the revision, gives the top level the
   values of the new newest version and leaves everything else alone.
   */
  lemma VersionWriteKeepsMetadata(req: Request, doc: Operator)
    requires !req.Update? && Sequential(req, doc).Ok?
    ensures var r := Sequential(req, doc).value;
            && r.name == doc.name && r.description == doc.description && r.cost == doc.cost
            && r.deploymentType == doc.deploymentType && r.pub == doc.pub && r.userId == doc.userId
            && r.revision == Some(if doc.revision.Some? then doc.revision.value + 1 else 1)
            && (req.PutV? ==> Put(doc.versions, req.version).Ok? && r.versions == Put(doc.versions, req.version).value.versions)
            && (req.RemoveV? ==>
                  RemoveVersion(doc.versions, req.tag).Ok? && r.versions == RemoveVersion(doc.versions, req.tag).value.versions)
    ensures var r := Sequential(req, doc).value;
            && r.versions != []
            && var newest := Newest(r.versions).value;
               && r.image == newest.image && r.inputs == newest.inputs
               && r.outputs == newest.outputs && r.config == newest.config
  {
    hide Newest, Put, RemoveVersion;
    match req {
      case PutV(_, version) => PutListHasEntries(doc.versions, version);
      case RemoveV(_, tag) => RemoveLeavesEntries(doc.versions, tag);
    }
  }

  lemma WriteOfBody(doc: Operator, body: Operator)
    ensures Written(doc, BodyFields(body)) ==
            WithMetadata(doc, body).(image := body.image, inputs := body.inputs, outputs := body.outputs,
                                     config := body.config, revision := NextRevision(doc.revision))
  {
  }

  /** The newest version's fields override the body's. */
  lemma WriteOfBodyAndNewest(doc: Operator, body: Operator, newest: OperatorVersion)
    ensures Written(doc, BodyFields(body) + NewestFields(newest)) ==
            WithTopLevel(WithMetadata(doc, body), newest).(revision := NextRevision(doc.revision))
  {
  }

  lemma WriteOfVersions(doc: Operator, id: ObjectId, versions: seq<OperatorVersion>)
    ensures Written(doc, VersionsPlan(id, doc, versions).fields) ==
            WithVersions(doc, versions).(revision := NextRevision(doc.revision))
  {
    hide Newest;
  }

  /**
   A prepared write that still matches does what the request does to the document as it is now: a
   versioned write because the document is the one read, an update without versions because it
   depends on nothing that was read.
   */
  lemma PlanMeansSequential(req: Request, stored: Operator, docs: map<ObjectId, Operator>)
    requires PlanOf(req, stored).Ok? && Matches(PlanOf(req, stored).value.filter, docs)
    requires PlanOf(req, stored).value.filter.ByRevision? ==> docs[req.id] == stored
    ensures PlanOf(req, stored).value.filter.id == req.id
    ensures Sequential(req, docs[req.id]) == Ok(Written(docs[req.id], PlanOf(req, stored).value.fields))
  {
    hide Put, RemoveVersion, CheckTopLevel, Newest, Written, BodyFields, NewestFields, WithTopLevel, WithMetadata, WithVersions;
    match req {
      case Update(id, body) =>
        WriteOfBody(docs[id], body);
        if stored.versions != [] {
          WriteOfBodyAndNewest(docs[id], body, Newest(stored.versions).value);
        }
      case PutV(id, version) =>
        WriteOfVersions(stored, id, Put(stored.versions, version).value.versions);
      case RemoveV(id, tag) =>
        WriteOfVersions(stored, id, RemoveVersion(stored.versions, tag).value.versions);
    }
  }

  lemma PlanFailsAsSequential(req: Request, stored: Operator)
    ensures PlanOf(req, stored).Err? <==> Sequential(req, stored).Err?
    ensures PlanOf(req, stored).Err? ==> Sequential(req, stored) == Err(PlanOf(req, stored).error)
  {
    hide Put, RemoveVersion, CheckTopLevel;
  }

  // ---------------------------------------------------------------- histories

  /** `issued` are the ids ever given out; the server never gives one out twice. */
  datatype Store = Store(docs: map<ObjectId, Operator>, issued: set<ObjectId>)

  predicate ValidStore(s: Store) { s.docs.Keys <= s.issued }

  datatype Event =
    | Inserted(id: ObjectId, body: Operator)
    | Deleted(id: ObjectId)
    | Applied(client: nat, req: Request)

  /** A new document starts at revision 1 and without versions. */
  function Fresh(body: Operator): Operator { body.(revision := Some(1), versions := []) }

  /** The event can happen and does something. */
  predicate TakesEffect(s: Store, e: Event) {
    match e
    case Inserted(id, _) => id !in s.issued
    case Deleted(id) => id in s.docs
    case Applied(_, req) => req.id in s.docs && Sequential(req, s.docs[req.id]).Ok?
  }

  function Effect(s: Store, e: Event): Store {
    if !TakesEffect(s, e) then s
    else
      match e
      case Inserted(id, body) => Store(s.docs[id := Fresh(body)], s.issued + {id})
      case Deleted(id) => s.(docs := s.docs - {id})
      case Applied(_, req) => s.(docs := s.docs[req.id := Sequential(req, s.docs[req.id]).value])
  }

  /** The events one after the other, each with its sequential meaning. */
  function Replay(s: Store, events: seq<Event>): Store {
    if events == [] then s else Effect(Replay(s, events[..|events| - 1]), events[|events| - 1])
  }

  lemma ReplayOne(s: Store, events: seq<Event>, e: Event)
    ensures Replay(s, events + [e]) == Effect(Replay(s, events), e)
  {
    assert (events + [e])[..|events|] == events;
  }

  lemma {:induction false} ReplayConcat(s: Store, before: seq<Event>, after: seq<Event>)
    ensures Replay(s, before + after) == Replay(Replay(s, before), after)
  {
    if after == [] {
      assert before + after == before;
    } else {
      var init, last := after[..|after| - 1], after[|after| - 1];
      ReplayConcat(s, before, init);
      assert before + after == before + init + [last];
      ReplayOne(s, before + init, last);
    }
  }

  /** Revisions in the order they are given out: a missing one comes first. */
  predicate Later(a: Option<int>, b: Option<int>) {
    b.Some? && (a.None? || a.value < b.value)
  }

  lemma RequestMovesRevision(req: Request, doc: Operator)
    requires Sequential(req, doc).Ok?
    ensures Sequential(req, doc).value.revision == NextRevision(doc.revision)
    ensures Sequential(req, doc).value.userId == doc.userId
  {
    hide Put, RemoveVersion, CheckTopLevel;
  }

  lemma EffectOnDocument(s: Store, e: Event, id: ObjectId)
    requires ValidStore(s)
    ensures ValidStore(Effect(s, e)) && s.issued <= Effect(s, e).issued
    ensures id in s.issued && id !in s.docs ==> id !in Effect(s, e).docs
    ensures id in s.docs && id in Effect(s, e).docs ==>
              || Effect(s, e).docs[id] == s.docs[id]
              || (Later(s.docs[id].revision, Effect(s, e).docs[id].revision) && e.Applied? && e.req.id == id && TakesEffect(s, e))
  {
    hide Sequential;
    if e.Applied? && TakesEffect(s, e) {
      RequestMovesRevision(e.req, s.docs[e.req.id]);
    }
  }

  lemma {:induction false} ReplayKeepsStoreValid(s: Store, events: seq<Event>)
    requires ValidStore(s)
    ensures ValidStore(Replay(s, events)) && s.issued <= Replay(s, events).issued
  {
    if events != [] {
      ReplayKeepsStoreValid(s, events[..|events| - 1]);
      EffectOnDocument(Replay(s, events[..|events| - 1]), events[|events| - 1], "");
    }
  }

  /** Later in a history a document is the same, or carries a later revision, or is gone for good. */
  lemma {:induction false} RevisionsGrow(s: Store, events: seq<Event>, id: ObjectId)
    requires ValidStore(s)
    ensures id in s.issued && id !in s.docs ==> id !in Replay(s, events).docs
    ensures id in s.docs && id in Replay(s, events).docs ==>
              || Replay(s, events).docs[id] == s.docs[id]
              || Later(s.docs[id].revision, Replay(s, events).docs[id].revision)
  {
    if events != [] {
      var init, last := events[..|events| - 1], events[|events| - 1];
      RevisionsGrow(s, init, id);
      ReplayKeepsStoreValid(s, init);
      EffectOnDocument(Replay(s, init), last, id);
    }
  }

  /** The store after the first `k` events. */
  function At(s: Store, history: seq<Event>, k: nat): Store
    requires k <= |history|
  {
    Replay(s, history[..k])
  }

  lemma AtLater(s: Store, history: seq<Event>, j: nat, k: nat)
    requires j <= k <= |history|
    ensures At(s, history, k) == Replay(At(s, history, j), history[j..k])
  {
    assert history[..k] == history[..j] + history[j..k];
    ReplayConcat(s, history[..j], history[j..k]);
  }

  /** In a whole history, id and revision determine the content, also while the revision is missing. */
  lemma RevisionDeterminesContent(s: Store, history: seq<Event>, j: nat, k: nat, id: ObjectId)
    requires ValidStore(s) && j <= k <= |history|
    requires id in At(s, history, j).docs && id in At(s, history, k).docs
    requires At(s, history, j).docs[id].revision == At(s, history, k).docs[id].revision
    ensures At(s, history, j).docs[id] == At(s, history, k).docs[id]
  {
    ReplayKeepsStoreValid(s, history[..j]);
    AtLater(s, history, j, k);
    RevisionsGrow(At(s, history, j), history[j..k], id);
  }

  /** If a document that is still there changed, some request on it took effect in between. */
  lemma {:induction false} ChangeHasWriter(s: Store, history: seq<Event>, j: nat, k: nat, id: ObjectId)
    requires ValidStore(s) && j <= k <= |history|
    requires id in At(s, history, j).docs && id in At(s, history, k).docs
    requires At(s, history, j).docs[id] != At(s, history, k).docs[id]
    ensures exists i :: j <= i < k && history[i].Applied? && history[i].req.id == id && TakesEffect(At(s, history, i), history[i])
  {
    if j < k {
      var before := At(s, history, k - 1);
      assert history[..k] == history[..k - 1] + [history[k - 1]];
      ReplayOne(s, history[..k - 1], history[k - 1]);
      ReplayKeepsStoreValid(s, history[..k - 1]);
      ReplayKeepsStoreValid(s, history[..j]);
      EffectOnDocument(before, history[k - 1], id);
      AtLater(s, history, j, k - 1);
      RevisionsGrow(At(s, history, j), history[j..k - 1], id);
      ReplayKeepsStoreValid(At(s, history, j), history[j..k - 1]);
      assert id in before.docs;
      if before.docs[id] != At(s, history, j).docs[id] {
        ChangeHasWriter(s, history, j, k - 1, id);
      }
    }
  }

  // ---------------------------------------------------------------- writes prepared from an older read

  /**
   However many events lie between the read and the write, a prepared write that goes through has
   exactly the effect of the request at that moment.
   */
  lemma LateWriteIsTheRequest(atRead: Store, between: seq<Event>, client: nat, req: Request)
    requires ValidStore(atRead) && req.id in atRead.docs
    requires PlanOf(req, atRead.docs[req.id]).Ok?
    requires Matches(PlanOf(req, atRead.docs[req.id]).value.filter, Replay(atRead, between).docs)
    ensures var now := Replay(atRead, between);
            var plan := PlanOf(req, atRead.docs[req.id]).value;
            && TakesEffect(now, Applied(client, req))
            && now.(docs := ConditionalWrite(now.docs, plan.filter, plan.fields)) == Effect(now, Applied(client, req))
            && (plan.filter.ByRevision? ==> now.docs[req.id] == atRead.docs[req.id])
            && (!req.Update? ==> plan.filter.ByRevision?)
  {
    hide Put, RemoveVersion, CheckTopLevel, Written, BodyFields, NewestFields, Sequential;
    RevisionsGrow(atRead, between, req.id);
    PlanMeansSequential(req, atRead.docs[req.id], Replay(atRead, between).docs);
  }

  /** A prepared write that misses a document that is still there finds it changed since the read. */
  lemma MissMeansChange(atRead: Store, between: seq<Event>, req: Request)
    requires ValidStore(atRead) && req.id in atRead.docs
    requires PlanOf(req, atRead.docs[req.id]).Ok?
    requires !Matches(PlanOf(req, atRead.docs[req.id]).value.filter, Replay(atRead, between).docs)
    requires req.id in Replay(atRead, between).docs
    ensures Replay(atRead, between).docs[req.id] != atRead.docs[req.id]
    ensures SomeoneWrote(atRead, between, req.id)
  {
    hide Put, RemoveVersion, CheckTopLevel, BodyFields, NewestFields, Sequential;
    assert between[..0] == [] && between[..|between|] == between;
    ChangeHasWriter(atRead, between, 0, |between|, req.id);
    var i :| 0 <= i < |between| && between[i].Applied? && between[i].req.id == req.id &&
             TakesEffect(At(atRead, between, i), between[i]);
    assert IsWrite(atRead, between, i, req.id);
  }

  /** The event at `i` is a request on the document that went through. */
  predicate IsWrite(s: Store, events: seq<Event>, i: nat, id: ObjectId) {
    i < |events| && events[i].Applied? && events[i].req.id == id && TakesEffect(At(s, events, i), events[i])
  }

  ghost predicate SomeoneWrote(s: Store, events: seq<Event>, id: ObjectId) {
    exists i: nat :: IsWrite(s, events, i, id)
  }

  // ---------------------------------------------------------------- what every document satisfies

  /** The top level carries the values of `v`. */
  predicate Mirrors(doc: Operator, v: OperatorVersion) {
    doc.image == v.image && doc.inputs == v.inputs && doc.outputs == v.outputs && doc.config == v.config
  }

  /** No versions, or a well-formed list whose newest entry the top level mirrors. */
  predicate WellFormedDoc(doc: Operator) {
    doc.versions == [] || (WellFormed(doc.versions) && Mirrors(doc, Newest(doc.versions).value))
  }

  predicate AllWellFormed(docs: map<ObjectId, Operator>) { forall id :: id in docs ==> WellFormedDoc(docs[id]) }

  lemma NewListIsWellFormed(req: Request, doc: Operator)
    requires WellFormedDoc(doc) && !req.Update? && Sequential(req, doc).Ok?
    ensures Sequential(req, doc).value.versions != [] && WellFormed(Sequential(req, doc).value.versions)
  {
    hide Put, RemoveVersion, CheckTopLevel, WellFormed, Entries, Newest;
    assert WellFormed(doc.versions) by { EmptyIsWellFormed(); }
    match req {
      case PutV(_, version) =>
        PutIsMapUpdate(doc.versions, version);
        EmptyList(Put(doc.versions, version).value.versions);
        assert version.version in Entries(Put(doc.versions, version).value.versions);
      case RemoveV(_, tag) =>
        RemoveIsMapRemoval(doc.versions, tag);
    }
  }

  lemma EmptyIsWellFormed()
    ensures WellFormed([])
  {
  }

  /** Every request keeps the invariant, and one that has versions keeps at least one. */
  lemma RequestKeepsWellFormed(req: Request, doc: Operator)
    requires WellFormedDoc(doc) && Sequential(req, doc).Ok?
    ensures WellFormedDoc(Sequential(req, doc).value)
    ensures doc.versions != [] ==> Sequential(req, doc).value.versions != []
  {
    hide Put, RemoveVersion, CheckTopLevel, WellFormed, Newest;
    if !req.Update? {
      NewListIsWellFormed(req, doc);
    }
  }

  /** From well-formed documents every history leads to well-formed documents. */
  lemma {:induction false} HistoryKeepsWellFormed(s: Store, events: seq<Event>)
    requires AllWellFormed(s.docs)
    ensures AllWellFormed(Replay(s, events).docs)
  {
    hide WellFormedDoc, Sequential;
    if events != [] {
      var init, last := events[..|events| - 1], events[|events| - 1];
      HistoryKeepsWellFormed(s, init);
      var before := Replay(s, init);
      if TakesEffect(before, last) {
        match last {
          case Inserted(_, body) => FreshIsWellFormed(body);
          case Deleted(_) =>
          case Applied(_, req) => RequestKeepsWellFormed(req, before.docs[req.id]);
        }
      }
    }
  }

  lemma FreshIsWellFormed(body: Operator)
    ensures WellFormedDoc(Fresh(body))
  {
  }

  /** An operator that has a version keeps at least one until it is deleted. */
  lemma {:induction false} VersionsStay(s: Store, history: seq<Event>, j: nat, k: nat, id: ObjectId)
    requires ValidStore(s) && AllWellFormed(s.docs) && j <= k <= |history|
    requires id in At(s, history, j).docs && id in At(s, history, k).docs
    requires At(s, history, j).docs[id].versions != []
    ensures At(s, history, k).docs[id].versions != []
  {
    if j < k {
      var before := At(s, history, k - 1);
      assert history[..k] == history[..k - 1] + [history[k - 1]];
      ReplayOne(s, history[..k - 1], history[k - 1]);
      ReplayKeepsStoreValid(s, history[..j]);
      ReplayKeepsStoreValid(s, history[..k - 1]);
      AtLater(s, history, j, k - 1);
      RevisionsGrow(At(s, history, j), history[j..k - 1], id);
      ReplayKeepsStoreValid(At(s, history, j), history[j..k - 1]);
      EffectOnDocument(before, history[k - 1], id);
      HistoryKeepsWellFormed(s, history[..k - 1]);
      VersionsStay(s, history, j, k - 1, id);
      OneEventKeepsVersions(before, history[k - 1], id);
    }
  }

  lemma OneEventKeepsVersions(s: Store, e: Event, id: ObjectId)
    requires ValidStore(s) && AllWellFormed(s.docs)
    requires id in s.docs && s.docs[id].versions != [] && id in Effect(s, e).docs
    ensures Effect(s, e).docs[id].versions != []
  {
    hide Sequential, WellFormedDoc;
    if e.Applied? && TakesEffect(s, e) {
      RequestKeepsWellFormed(e.req, s.docs[e.req.id]);
    }
  }

  // ---------------------------------------------------------------- writing back what was read

  /** A list as a client sends it back: the same, or left out when it is empty. */
  predicate SentBack(got: Ports, stored: Ports) { got == stored || (got.Absent? && stored.Values() == []) }

  /** A body made from the document by a client that may drop empty lists; its versions are ignored. */
  predicate BodyFromRead(body: Operator, doc: Operator) {
    && body.name == doc.name && body.description == doc.description && body.image == doc.image
    && body.cost == doc.cost && body.deploymentType == doc.deploymentType && body.pub == doc.pub
    && SentBack(body.inputs, doc.inputs) && SentBack(body.outputs, doc.outputs) && SentBack(body.config, doc.config)
  }

  /** Posting back what was read changes nothing of an operator with versions but its revision. */
  lemma WriteBackWithVersions(id: ObjectId, doc: Operator, body: Operator)
    requires WellFormedDoc(doc) && doc.versions != [] && BodyFromRead(body, doc)
    ensures Sequential(Update(id, body), doc) == Ok(doc.(revision := NextRevision(doc.revision)))
  {
    hide WellFormed, Newest;
  }

  /**
   Without versions the body is written as it is: the document stays as it was exactly when the
   client left no empty list out, and otherwise an empty list becomes an absent one.
   */
  lemma WriteBackWithoutVersions(id: ObjectId, doc: Operator, body: Operator)
    requires doc.versions == [] && BodyFromRead(body, doc)
    ensures Sequential(Update(id, body), doc).Ok?
    ensures Sequential(Update(id, body), doc) == Ok(doc.(revision := NextRevision(doc.revision))) <==>
              !(body.inputs.Absent? && doc.inputs.Present?) &&
              !(body.outputs.Absent? && doc.outputs.Present?) &&
              !(body.config.Absent? && doc.config.Present?)
    ensures var r := Sequential(Update(id, body), doc).value;
            && r.image == doc.image && r.versions == []
            && r.inputs.Values() == doc.inputs.Values()
            && r.outputs.Values() == doc.outputs.Values()
            && r.config.Values() == doc.config.Values()
  {
    var r := Sequential(Update(id, body), doc).value;
    assert r == doc.(inputs := body.inputs, outputs := body.outputs, config := body.config,
                     revision := NextRevision(doc.revision));
  }

  /** A client that leaves the stored empty inputs out of its body stores them as absent. */
  lemma DroppedListIsStoredAsAbsent(id: ObjectId)
    ensures var doc := Operator("op", "img", "", "", None, "owner", false, Absent, Present([]), Absent, Some(1), []);
            var body := doc.(inputs := Absent);
            && WellFormedDoc(doc) && BodyFromRead(body, doc)
            && Sequential(Update(id, body), doc) == Ok(doc.(inputs := Absent, revision := Some(2)))
  {
    hide WellFormed, Newest;
  }

  // ---------------------------------------------------------------- the repository

  /** How the server answers a conditional write: it may also fail, with or without having written. */
  datatype Delivery = Acknowledged | NotSent | AckLost

  /** The permission service's answer. */
  datatype Rights = Granted | Denied | Unavailable

  /** A well-formed object id in hexadecimal; upper-case digits name the same id. */
  predicate IsHexId(s: string) { |s| == 24 && forall i :: 0 <= i < 24 ==> IsHexDigit(s[i]) }

  predicate IsHexDigit(c: char) { '0' <= c <= '9' || 'a' <= c <= 'f' || 'A' <= c <= 'F' }

  function LowerHex(c: char): char
    requires IsHexDigit(c)
  {
    if 'A' <= c <= 'F' then (c as int + 32) as char else c
  }

  function ParseObjectId(s: string): Option<ObjectId> {
    if IsHexId(s) then Some(seq(24, i requires 0 <= i < 24 && IsHexId(s) => LowerHex(s[i]))) else None
  }

  /** An id is accepted exactly when it consists of 24 hexadecimal digits, in either case. */
  lemma ObjectIdIsReadExactlyWhen(s: string)
    ensures ParseObjectId(s).Some? <==>
              |s| == 24 && forall i :: 0 <= i < 24 ==> s[i] in "0123456789" || s[i] in "abcdef" || s[i] in "ABCDEF"
  {
    var digits, lower, upper := "0123456789", "abcdef", "ABCDEF";
    assert forall k :: 0 <= k < 10 ==> digits[k] == (48 + k) as char;
    assert forall k :: 0 <= k < 6 ==> lower[k] == (97 + k) as char && upper[k] == (65 + k) as char;
    forall c ensures IsHexDigit(c) <==> c in digits || c in lower || c in upper {
      HexDigitIsListed(c, digits, lower, upper);
    }
  }

  lemma HexDigitIsListed(c: char, digits: string, lower: string, upper: string)
    requires |digits| == 10 && forall k :: 0 <= k < 10 ==> digits[k] == (48 + k) as char
    requires |lower| == 6 && |upper| == 6
    requires forall k :: 0 <= k < 6 ==> lower[k] == (97 + k) as char && upper[k] == (65 + k) as char
    ensures IsHexDigit(c) <==> c in digits || c in lower || c in upper
  {
    if '0' <= c <= '9' {
      assert digits[c as int - 48] == c;
    }
    if 'a' <= c <= 'f' {
      assert lower[c as int - 97] == c;
    }
    if 'A' <= c <= 'F' {
      assert upper[c as int - 65] == c;
    }
  }

  /** The same digit, or the same letter in either case. */
  predicate SameButCase(c: char, d: char) {
    c == d || exists k :: 0 <= k < 6 && {c, d} == {"abcdef"[k], "ABCDEF"[k]}
  }

  lemma LowerHexIsCaseOnly(c: char, d: char)
    requires IsHexDigit(c) && IsHexDigit(d)
    ensures LowerHex(c) == LowerHex(d) <==> SameButCase(c, d)
  {
    var lower, upper := "abcdef", "ABCDEF";
    assert forall k :: 0 <= k < 6 ==> lower[k] == (97 + k) as char && upper[k] == (65 + k) as char;
    if c != d && LowerHex(c) == LowerHex(d) {
      var k := LowerHex(c) as int - 97;
      assert {c, d} == {lower[k], upper[k]};
    }
  }

  /** An id in small letters is read as itself. */
  lemma LowerCaseIdIsItself(s: string)
    requires |s| == 24 && forall i :: 0 <= i < 24 ==> '0' <= s[i] <= '9' || 'a' <= s[i] <= 'f'
    ensures ParseObjectId(s) == Some(s)
  {
    assert forall i :: 0 <= i < 24 ==> IsHexDigit(s[i]) && LowerHex(s[i]) == s[i];
    assert ParseObjectId(s).value == s;
  }

  /** Two spellings name the same id exactly when they differ in case only. */
  lemma ObjectIdsIgnoreCase(s: string, t: string)
    requires ParseObjectId(s).Some? && ParseObjectId(t).Some?
    ensures ParseObjectId(s) == ParseObjectId(t) <==> forall i :: 0 <= i < 24 ==> SameButCase(s[i], t[i])
  {
    hide SameButCase, LowerHex;
    var a, b := ParseObjectId(s).value, ParseObjectId(t).value;
    forall i | 0 <= i < 24 ensures a[i] == b[i] <==> SameButCase(s[i], t[i]) {
      LowerHexIsCaseOnly(s[i], t[i]);
    }
    if forall i :: 0 <= i < 24 ==> SameButCase(s[i], t[i]) {
      assert forall i :: 0 <= i < 24 ==> a[i] == b[i];
      assert a == b;
    }
  }

  /**
   The repository object.  Between its own accesses to the collection a method lets the events
   handed to it happen: they are the writes of all other clients, in any number and order.
   */
  class MongoRepo {
    var docs: map<ObjectId, Operator>
    var issued: set<ObjectId>

    function Snapshot(): Store
      reads this
    {
      Store(docs, issued)
    }

    constructor (docs: map<ObjectId, Operator>, issued: set<ObjectId>)
      ensures Snapshot() == Store(docs, issued)
    {
      this.docs, this.issued := docs, issued;
    }

    /** Other clients' writes. */
    method Interfere(events: seq<Event>)
      modifies this
      ensures Snapshot() == Replay(old(Snapshot()), events)
    {
      hide Sequential;
      var i := 0;
      while i < |events|
        invariant 0 <= i <= |events|
        invariant Snapshot() == Replay(old(Snapshot()), events[..i])
      {
        assert events[..i + 1] == events[..i] + [events[i]];
        ReplayOne(old(Snapshot()), events[..i], events[i]);
        match events[i] {
          case Inserted(id, body) =>
            if id !in issued {
              docs := docs[id := Fresh(body)];
              issued := issued + {id};
            }
          case Deleted(id) =>
            if id in docs {
              docs := docs - {id};
            }
          case Applied(_, req) =>
            if req.id in docs {
              var r := Sequential(req, docs[req.id]);
              if r.Ok? {
                docs := docs[req.id := r.value];
              }
            }
        }
        i := i + 1;
      }
      assert events[..i] == events;
    }

    method FindStored(id: ObjectId) returns (r: Result<Operator>)
      ensures r == if id in docs then Ok(docs[id]) else Err(NotFound)
    {
      if id in docs {
        return Ok(docs[id]);
      }
      return Err(NotFound);
    }

    /**
     The conditional write, and after a miss the count that tells a changed document from a deleted
     one.  `racing` happens between the two.
     */
    method WriteIf(filter: Filter, fields: Fields, delivery: Delivery, racing: seq<Event>, counted: bool)
      returns (err: Option<Error>)
      modifies this
      ensures delivery == NotSent ==> err == Some(ServerError) && Snapshot() == old(Snapshot())
      ensures delivery == AckLost ==>
                err == Some(ServerError) &&
                Snapshot() == old(Snapshot()).(docs := ConditionalWrite(old(docs), filter, fields))
      ensures delivery == Acknowledged && Matches(filter, old(docs)) ==>
                err == None &&
                Snapshot() == old(Snapshot()).(docs := ConditionalWrite(old(docs), filter, fields))
      ensures delivery == Acknowledged && !Matches(filter, old(docs)) ==>
                Snapshot() == Replay(old(Snapshot()), racing) &&
                err == Some(if !counted then ServerError else if filter.id in docs then Conflict else NotFound)
    {
      if delivery == NotSent {
        return Some(ServerError);
      }
      var matched := Matches(filter, docs);
      docs := ConditionalWrite(docs, filter, fields);
      if delivery == AckLost {
        return Some(ServerError);
      }
      if matched {
        return None;
      }
      Interfere(racing);
      if !counted {
        return Some(ServerError);
      }
      if filter.id !in docs {
        return Some(NotFound);
      }
      return Some(Conflict);
    }

    method SetNewestVersion(fields: Fields, newest: OperatorVersion) returns (r: Fields)
      ensures r == fields + NewestFields(newest)
    {
      r := fields;
      r := r[Image := Str(newest.image)];
      r := r[Inputs := PortList(newest.inputs)];
      r := r[Outputs := PortList(newest.outputs)];
      r := r[ConfigValues := PortList(newest.config)];
    }

    /** What a write prepared from `stored` reports and leaves behind, in one place for all three. */
    ghost predicate Outcome(before: Store, after: Store, req: Request, stored: Operator,
                            delivery: Delivery, racing: seq<Event>, counted: bool, err: Option<Error>) {
      match PlanOf(req, stored)
      case Err(e) => err == Some(e) && after == before
      case Ok(plan) =>
        var wrote := before.(docs := ConditionalWrite(before.docs, plan.filter, plan.fields));
        match delivery
        case NotSent => err == Some(ServerError) && after == before
        case AckLost => err == Some(ServerError) && after == wrote
        case Acknowledged =>
          if Matches(plan.filter, before.docs) then err == None && after == wrote
          else
            && after == Replay(before, racing)
            && err == Some(if !counted then ServerError else if req.id in after.docs then Conflict else NotFound)
    }

    method ApplyUpdate(id: ObjectId, stored: Operator, body: Operator,
                       delivery: Delivery, racing: seq<Event>, counted: bool)
      returns (err: Option<Error>)
      modifies this
      ensures Outcome(old(Snapshot()), Snapshot(), Update(id, body), stored, delivery, racing, counted, err)
    {
      var fields: Fields := BodyFields(body);
      var newest := NewestVersion(stored.versions);
      if newest.Some? {
        if !CheckTopLevel(body, newest.value) {
          return Some(InvalidInput);
        }
        fields := SetNewestVersion(fields, newest.value);
        err := WriteIf(ByRevision(id, stored.revision), fields, delivery, racing, counted);
        return;
      }
      err := WriteIf(NoVersions(id), fields, delivery, racing, counted);
    }

    method ApplyVersionPut(id: ObjectId, stored: Operator, version: OperatorVersion,
                           delivery: Delivery, racing: seq<Event>, counted: bool)
      returns (created: bool, err: Option<Error>)
      modifies this
      ensures Outcome(old(Snapshot()), Snapshot(), PutV(id, version), stored, delivery, racing, counted, err)
      ensures created == (err == None && Put(stored.versions, version).value.created)
    {
      hide Put;
      var answer := PutVersion(stored.versions, version);
      if answer.Err? {
        return false, Some(answer.error);
      }
      var newest := NewestVersion(answer.value.versions);
      var fields: Fields := map[VersionsField := VersionList(answer.value.versions)];
      if newest.Some? {
        fields := SetNewestVersion(fields, newest.value);
      }
      err := WriteIf(ByRevision(id, stored.revision), fields, delivery, racing, counted);
      created := err == None && answer.value.created;
    }

    /** `check` sees the version about to go after the rights check and before the write. */
    method ApplyVersionDelete(id: ObjectId, stored: Operator, tag: string, check: OperatorVersion -> Option<Error>,
                              delivery: Delivery, racing: seq<Event>, counted: bool)
      returns (err: Option<Error>)
      modifies this
      ensures RemoveVersion(stored.versions, tag).Ok? && check(RemoveVersion(stored.versions, tag).value.removed).Some? ==>
                err == check(RemoveVersion(stored.versions, tag).value.removed) && Snapshot() == old(Snapshot())
      ensures !(RemoveVersion(stored.versions, tag).Ok? && check(RemoveVersion(stored.versions, tag).value.removed).Some?) ==>
                Outcome(old(Snapshot()), Snapshot(), RemoveV(id, tag), stored, delivery, racing, counted, err)
    {
      hide RemoveVersion;
      var answer := RemoveVersion(stored.versions, tag);
      if answer.Err? {
        return Some(answer.error);
      }
      var refusal := check(answer.value.removed);
      if refusal.Some? {
        return refusal;
      }
      var newest := NewestVersion(answer.value.versions);
      var fields: Fields := map[VersionsField := VersionList(answer.value.versions)];
      if newest.Some? {
        fields := SetNewestVersion(fields, newest.value);
      }
      err := WriteIf(ByRevision(id, stored.revision), fields, delivery, racing, counted);
    }

    /**
     What a whole request may report, given the store at its read, the events between read and write,
     and those between a miss and the count.
     */
    ghost predicate Linearized(atRead: Store, after: Store, client: nat, req: Request,
                               between: seq<Event>, racing: seq<Event>, err: Option<Error>) {
      var now := Replay(atRead, between);
      && (err == None ==>
            && TakesEffect(now, Applied(client, req))
            && after == Replay(atRead, between + [Applied(client, req)])
            && req.id in atRead.docs && Sequential(req, atRead.docs[req.id]).Ok?
            && (req.Update? || now.docs[req.id] == atRead.docs[req.id]))
      && (err == Some(Conflict) ==>
            req.id in after.docs && SomeoneWrote(atRead, between, req.id) && after == Replay(now, racing))
      && (err == Some(NotFound) ==>
            req.id !in after.docs && after == Replay(now, racing))
      && (err == Some(InvalidInput) || err == Some(VersionNotFound) ==>
            req.id in atRead.docs && Sequential(req, atRead.docs[req.id]) == Err(err.value) && after == now)
      && (err == Some(ServerError) ==>
            || after == now || after == Replay(now, racing)
            || (TakesEffect(now, Applied(client, req)) && after == Replay(atRead, between + [Applied(client, req)])))
      && (err.Some? ==> err.value in {InvalidInput, VersionNotFound, Conflict, NotFound, ServerError})
    }

    /** The common part of the three requests: from the outcome of the write to the claim. */
    lemma OutcomeIsLinearized(atRead: Store, after: Store, client: nat, req: Request, between: seq<Event>,
                              delivery: Delivery, racing: seq<Event>, counted: bool, err: Option<Error>)
      requires ValidStore(atRead) && req.id in atRead.docs
      requires Outcome(Replay(atRead, between), after, req, atRead.docs[req.id], delivery, racing, counted, err)
      ensures Linearized(atRead, after, client, req, between, racing, err)
    {
      hide Sequential, PlanOf, ConditionalWrite, Matches;
      var now, stored := Replay(atRead, between), atRead.docs[req.id];
      PlanFailsAsSequential(req, stored);
      ReplayOne(atRead, between, Applied(client, req));
      if PlanOf(req, stored).Ok? {
        NoMatchNoWrite(PlanOf(req, stored).value, now);
        if Matches(PlanOf(req, stored).value.filter, now.docs) {
          LateWriteIsTheRequest(atRead, between, client, req);
        } else if delivery == Acknowledged && req.id in after.docs {
          ReplayKeepsStoreValid(atRead, between);
          RevisionsGrow(now, racing, req.id);
          StillThere(atRead, between, req.id);
          MissMeansChange(atRead, between, req);
        }
      }
      PlanErrors(req, stored);
    }

    method UpdateOperator(client: nat, id: string, body: Operator, rights: Rights,
                          between: seq<Event>, delivery: Delivery, racing: seq<Event>, counted: bool)
      returns (err: Option<Error>)
      requires ValidStore(Snapshot())
      modifies this
      ensures rights != Granted ==>
                err == Some(if rights == Denied then MissingRights else ServerError) && Snapshot() == old(Snapshot())
      ensures rights == Granted && ParseObjectId(id) == None ==>
                err == Some(InvalidInput) && Snapshot() == old(Snapshot())
      ensures rights == Granted && ParseObjectId(id).Some? && ParseObjectId(id).value !in old(docs) ==>
                err == Some(NotFound) && Snapshot() == old(Snapshot())
      ensures rights == Granted && ParseObjectId(id).Some? && ParseObjectId(id).value in old(docs) ==>
                Linearized(old(Snapshot()), Snapshot(), client, Update(ParseObjectId(id).value, body), between, racing, err)
      ensures err == None ==>
                && ParseObjectId(id).Some?
                && var objId := ParseObjectId(id).value;
                   var was := Replay(old(Snapshot()), between).docs;
                   && objId in was && objId in docs && docs == was[objId := docs[objId]]
                   && docs[objId].name == body.name && docs[objId].description == body.description
                   && docs[objId].cost == body.cost && docs[objId].deploymentType == body.deploymentType
                   && docs[objId].pub == body.pub
                   && docs[objId].userId == was[objId].userId && docs[objId].versions == was[objId].versions
                   && docs[objId].revision == Some(if was[objId].revision.Some? then was[objId].revision.value + 1 else 1)
      ensures rights == Granted && ParseObjectId(id).Some? && ParseObjectId(id).value in old(docs) ==>
                var stored := old(docs)[ParseObjectId(id).value];
                err == Some(InvalidInput) <==>
                  && stored.versions != []
                  && var newest := Newest(stored.versions).value;
                     || (body.image != "" && body.image != newest.image)
                     || (body.inputs.Present? && body.inputs.values != if newest.inputs.Present? then newest.inputs.values else [])
                     || (body.outputs.Present? && body.outputs.values != if newest.outputs.Present? then newest.outputs.values else [])
                     || (body.config.Present? && body.config.values != if newest.config.Present? then newest.config.values else [])
    {
      hide Sequential, PlanOf, Newest;
      if rights == Unavailable {
        return Some(ServerError);
      }
      if rights == Denied {
        return Some(MissingRights);
      }
      var objId := ParseObjectId(id);
      if objId == None {
        return Some(InvalidInput);
      }
      var stored := FindStored(objId.value);
      if stored.Err? {
        return Some(stored.error);
      }
      Interfere(between);
      err := ApplyUpdate(objId.value, stored.value, body, delivery, racing, counted);
      OutcomeIsLinearized(old(Snapshot()), Snapshot(), client, Update(objId.value, body), between, delivery, racing, counted, err);
      PlanFailsAsSequential(Update(objId.value, body), stored.value);
      UpdateIsRefusedExactlyWhen(objId.value, body, stored.value);
      if err == None {
        ReplayOne(old(Snapshot()), between, Applied(client, Update(objId.value, body)));
        UpdateWritesTheBody(objId.value, body, Replay(old(Snapshot()), between).docs[objId.value]);
      }
    }

    method PutOperatorVersion(client: nat, id: string, version: OperatorVersion, rights: Rights,
                              between: seq<Event>, delivery: Delivery, racing: seq<Event>, counted: bool)
      returns (created: bool, err: Option<Error>)
      requires ValidStore(Snapshot())
      modifies this
      ensures rights != Granted ==>
                err == Some(if rights == Denied then MissingRights else ServerError) && Snapshot() == old(Snapshot())
      ensures rights == Granted && ParseObjectId(id) == None ==>
                err == Some(InvalidInput) && Snapshot() == old(Snapshot())
      ensures rights == Granted && ParseObjectId(id).Some? && ParseObjectId(id).value !in old(docs) ==>
                err == Some(NotFound) && Snapshot() == old(Snapshot())
      ensures rights == Granted && ParseObjectId(id).Some? && ParseObjectId(id).value in old(docs) ==>
                && Linearized(old(Snapshot()), Snapshot(), client, PutV(ParseObjectId(id).value, version), between, racing, err)
                && created == (err == None && forall x :: x in old(docs)[ParseObjectId(id).value].versions ==> x.version != version.version)
      ensures err == None ==>
                && ParseObjectId(id).Some? && ParseObjectId(id).value in old(docs)
                && var objId := ParseObjectId(id).value;
                   var stored := old(docs)[objId];
                   && objId in docs && docs == Replay(old(Snapshot()), between).docs[objId := docs[objId]]
                   && Put(stored.versions, version).Ok?
                   && docs[objId].versions == Put(stored.versions, version).value.versions
                   && docs[objId].versions != []
                   && var newest := Newest(docs[objId].versions).value;
                      docs[objId] == stored.(
                        versions := docs[objId].versions,
                        revision := Some(if stored.revision.Some? then stored.revision.value + 1 else 1),
                        image := newest.image, inputs := newest.inputs, outputs := newest.outputs, config := newest.config)
    {
      hide Sequential, PlanOf, Newest, Put;
      created := false;
      if rights == Unavailable {
        err := Some(ServerError);
        return;
      }
      if rights == Denied {
        err := Some(MissingRights);
        return;
      }
      var objId := ParseObjectId(id);
      if objId == None {
        err := Some(InvalidInput);
        return;
      }
      var stored := FindStored(objId.value);
      if stored.Err? {
        err := Some(stored.error);
        return;
      }
      Interfere(between);
      created, err := ApplyVersionPut(objId.value, stored.value, version, delivery, racing, counted);
      OutcomeIsLinearized(old(Snapshot()), Snapshot(), client, PutV(objId.value, version), between, delivery, racing, counted, err);
      if err == None {
        ReplayOne(old(Snapshot()), between, Applied(client, PutV(objId.value, version)));
        VersionWriteKeepsMetadata(PutV(objId.value, version), stored.value);
        PutCreates(stored.value.versions, version);
      }
    }

    method DeleteOperatorVersion(client: nat, id: string, tag: string, rights: Rights,
                                 check: OperatorVersion -> Option<Error>,
                                 between: seq<Event>, delivery: Delivery, racing: seq<Event>, counted: bool)
      returns (err: Option<Error>)
      requires ValidStore(Snapshot())
      modifies this
      ensures rights != Granted ==>
                err == Some(if rights == Denied then MissingRights else ServerError) && Snapshot() == old(Snapshot())
      ensures rights == Granted && ParseObjectId(id) == None ==>
                err == Some(InvalidInput) && Snapshot() == old(Snapshot())
      ensures rights == Granted && ParseObjectId(id).Some? && ParseObjectId(id).value !in old(docs) ==>
                err == Some(NotFound) && Snapshot() == old(Snapshot())
      ensures rights == Granted && ParseObjectId(id).Some? && ParseObjectId(id).value in old(docs) ==>
                var answer := RemoveVersion(old(docs)[ParseObjectId(id).value].versions, tag);
                if answer.Ok? && check(answer.value.removed).Some? then
                  err == check(answer.value.removed) && Snapshot() == Replay(old(Snapshot()), between)
                else
                  Linearized(old(Snapshot()), Snapshot(), client, RemoveV(ParseObjectId(id).value, tag), between, racing, err)
      ensures err == None ==>
                && ParseObjectId(id).Some? && ParseObjectId(id).value in old(docs)
                && var objId := ParseObjectId(id).value;
                   var stored := old(docs)[objId];
                   && objId in docs && docs == Replay(old(Snapshot()), between).docs[objId := docs[objId]]
                   && RemoveVersion(stored.versions, tag).Ok? && check(RemoveVersion(stored.versions, tag).value.removed) == None
                   && docs[objId].versions == RemoveVersion(stored.versions, tag).value.versions
                   && docs[objId].versions != []
                   && var newest := Newest(docs[objId].versions).value;
                      docs[objId] == stored.(
                        versions := docs[objId].versions,
                        revision := Some(if stored.revision.Some? then stored.revision.value + 1 else 1),
                        image := newest.image, inputs := newest.inputs, outputs := newest.outputs, config := newest.config)
    {
      hide Sequential, PlanOf, Newest, RemoveVersion;
      if rights == Unavailable {
        return Some(ServerError);
      }
      if rights == Denied {
        return Some(MissingRights);
      }
      var objId := ParseObjectId(id);
      if objId == None {
        return Some(InvalidInput);
      }
      var stored := FindStored(objId.value);
      if stored.Err? {
        return Some(stored.error);
      }
      Interfere(between);
      err := ApplyVersionDelete(objId.value, stored.value, tag, check, delivery, racing, counted);
      if !(RemoveVersion(stored.value.versions, tag).Ok? && check(RemoveVersion(stored.value.versions, tag).value.removed).Some?) {
        OutcomeIsLinearized(old(Snapshot()), Snapshot(), client, RemoveV(objId.value, tag), between, delivery, racing, counted, err);
        if err == None {
          ReplayOne(old(Snapshot()), between, Applied(client, RemoveV(objId.value, tag)));
          VersionWriteKeepsMetadata(RemoveV(objId.value, tag), stored.value);
        }
      }
    }
  }

  lemma NoMatchNoWrite(plan: Plan, s: Store)
    ensures !Matches(plan.filter, s.docs) ==> s.(docs := ConditionalWrite(s.docs, plan.filter, plan.fields)) == s
  {
    hide Written;
  }

  lemma PlanErrors(req: Request, stored: Operator)
    ensures PlanOf(req, stored).Err? ==> PlanOf(req, stored).error in {InvalidInput, VersionNotFound}
    ensures PlanOf(req, stored).Ok? ==> PlanOf(req, stored).value.filter.id == req.id
  {
    hide CheckTopLevel, Newest;
  }

  /** A document of the store either stays or leaves for good. */
  lemma StillThere(s: Store, events: seq<Event>, id: ObjectId)
    requires ValidStore(s) && id in s.docs
    ensures id in Replay(s, events).issued
  {
    ReplayKeepsStoreValid(s, events);
  }
}
