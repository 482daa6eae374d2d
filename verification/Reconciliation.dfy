/**
 Operators live in two stores: the documents, and one permission resource per document at the
 permission service (`pkg/db/repo.go`).  Every insert and delete is two calls and can stop between
 them; `ValidateOperatorPermissions` repairs the permission side at start-up.
 */
module Reconciliation {
  import opened Text
  import opened Operators
  import opened Repo
  import opened Versions
  import P = Protocol

  datatype Grant = Grant(read: bool, write: bool, execute: bool, administrate: bool)

  const FULL := Grant(true, true, true, true)

  datatype Resource = Resource(users: map<string, Grant>, groups: map<string, Grant>, roles: map<string, Grant>)

  const NOBODY := Resource(map[], map[], map[])

  /** A write to the permission service can fail before or after it took effect. */
  datatype Call = Succeeds | FailsBefore | FailsAfter

  /** What happens to the two calls of one insert or delete. */
  datatype Fault = Fault(delivery: Delivery, call: Call)

  const CLEAN := Fault(Acknowledged, Succeeds)

  datatype Stores = Stores(docs: map<ObjectId, Operator>, issued: set<ObjectId>, perms: map<string, Resource>)

  /** The ids of documents are those the database made, written in lower-case hexadecimal. */
  predicate ValidStores(s: Stores) {
    s.docs.Keys <= s.issued && forall id :: id in s.docs ==> ParseObjectId(id) == Some(id)
  }

  // ---------------------------------------------------------------- the target of the repair

  predicate OwnerHasFullPermissions(r: Resource, owner: string) {
    owner in r.users && var g := r.users[owner]; g.read && g.write && g.execute && g.administrate
  }

  function WithDefault(r: Resource, owner: string): Resource { r.(users := r.users[owner := FULL]) }

  /** The write that is skipped would have changed nothing, and no other write is skipped. */
  lemma SkipsExactlyTheIdleWrites(r: Resource, owner: string)
    ensures OwnerHasFullPermissions(r, owner) <==> WithDefault(r, owner) == r
  {
    if OwnerHasFullPermissions(r, owner) {
      assert r.users[owner := FULL] == r.users;
    }
    if WithDefault(r, owner) == r {
      assert r.users[owner := FULL] == r.users;
      assert r.users[owner] == FULL;
    }
  }

  function ResourceAt(perms: map<string, Resource>, id: string): Resource {
    if id in perms then perms[id] else NOBODY
  }

  /** One resource per document, the owner with all rights, everything else as it was. */
  function Repaired(docs: map<ObjectId, Operator>, perms: map<string, Resource>): map<string, Resource> {
    map id | id in docs :: WithDefault(ResourceAt(perms, id), docs[id].userId)
  }

  predicate InSync(docs: map<ObjectId, Operator>, perms: map<string, Resource>) {
    perms.Keys == docs.Keys && forall id :: id in docs ==> OwnerHasFullPermissions(perms[id], docs[id].userId)
  }

  /** A repair has nothing to do exactly when the stores agree, and afterwards they do. */
  lemma RepairedExactlyWhenInSync(docs: map<ObjectId, Operator>, perms: map<string, Resource>)
    ensures InSync(docs, Repaired(docs, perms))
    ensures InSync(docs, perms) <==> Repaired(docs, perms) == perms
  {
    if InSync(docs, perms) {
      forall id | id in docs ensures Repaired(docs, perms)[id] == perms[id] {
        SkipsExactlyTheIdleWrites(perms[id], docs[id].userId);
      }
    }
  }

  /** The repaired resource of each document: the owner's four rights are set and everything else stays. */
  lemma RepairSetsTheOwnersRights(docs: map<ObjectId, Operator>, perms: map<string, Resource>, id: string)
    ensures id in Repaired(docs, perms) <==> id in docs
    ensures id in docs ==>
              Repaired(docs, perms)[id] == Resource(
                (if id in perms then perms[id].users else map[])[docs[id].userId := Grant(true, true, true, true)],
                if id in perms then perms[id].groups else map[],
                if id in perms then perms[id].roles else map[])
    ensures InSync(docs, perms) <==>
              && perms.Keys == docs.Keys
              && forall x :: x in docs ==>
                   docs[x].userId in perms[x].users && perms[x].users[docs[x].userId] == Grant(true, true, true, true)
  {
    forall x | x in docs && x in perms
      ensures OwnerHasFullPermissions(perms[x], docs[x].userId) <==>
                docs[x].userId in perms[x].users && perms[x].users[docs[x].userId] == Grant(true, true, true, true)
    {
    }
  }

  /** Whoever else had rights on a surviving operator keeps them. */
  function Others(s: Stores, id: ObjectId): Resource
    requires id in s.docs
  {
    var r := ResourceAt(s.perms, id);
    r.(users := r.users - {s.docs[id].userId})
  }

  lemma RepairKeepsOthers(s: Stores, id: ObjectId)
    requires id in s.docs
    ensures Others(s.(perms := Repaired(s.docs, s.perms)), id) == Others(s, id)
  {
    var r, owner := ResourceAt(s.perms, id), s.docs[id].userId;
    assert r.users[owner := FULL] - {owner} == r.users - {owner};
  }

  function Entry(perms: map<string, Resource>, id: string): Option<Resource> {
    if id in perms then Some(perms[id]) else None
  }

  /** Every entry is still the old one or already the new one. */
  ghost predicate PartOfTheWay(before: map<string, Resource>, target: map<string, Resource>, now: map<string, Resource>) {
    forall id :: Entry(now, id) == Entry(before, id) || Entry(now, id) == Entry(target, id)
  }

  lemma EndsOfTheWay(before: map<string, Resource>, target: map<string, Resource>)
    ensures PartOfTheWay(before, target, before) && PartOfTheWay(before, target, target)
  {
  }

  /** However a repair stops, a later one still reaches the state the first was heading for. */
  lemma RepairCanBeResumed(docs: map<ObjectId, Operator>, before: map<string, Resource>, now: map<string, Resource>)
    requires PartOfTheWay(before, Repaired(docs, before), now)
    ensures Repaired(docs, now) == Repaired(docs, before)
  {
    forall id | id in docs
      ensures Repaired(docs, now)[id] == Repaired(docs, before)[id]
    {
      ResumesAt(docs, before, now, id);
    }
  }

  lemma ResumesAt(docs: map<ObjectId, Operator>, before: map<string, Resource>, now: map<string, Resource>, id: ObjectId)
    requires id in docs
    requires Entry(now, id) == Entry(before, id) || Entry(now, id) == Some(WithDefault(ResourceAt(before, id), docs[id].userId))
    ensures WithDefault(ResourceAt(now, id), docs[id].userId) == WithDefault(ResourceAt(before, id), docs[id].userId)
  {
    var users, owner := ResourceAt(before, id).users, docs[id].userId;
    assert users[owner := FULL][owner := FULL] == users[owner := FULL];
  }

  // ---------------------------------------------------------------- a repair from an older listing

  /** The owner's rights were complete when the resources were listed. */
  predicate OwnerKnown(docs: map<ObjectId, Operator>, known: map<string, Resource>, id: ObjectId) {
    id in docs && id in known && OwnerHasFullPermissions(known[id], docs[id].userId)
  }

  /**
   What a repair that listed `known` leaves at an id when others have meanwhile made the resources
   `now`: it writes only where a right of the owner was missing, and then all of what it had listed.
   */
  function LeftBy(docs: map<ObjectId, Operator>, known: map<string, Resource>, now: map<string, Resource>, id: string): Option<Resource> {
    if id in docs then
      if OwnerKnown(docs, known, id) then Entry(now, id) else Some(WithDefault(ResourceAt(known, id), docs[id].userId))
    else if id in known then None
    else Entry(now, id)
  }

  function RepairedOver(docs: map<ObjectId, Operator>, known: map<string, Resource>, now: map<string, Resource>): map<string, Resource> {
    map id | id in docs.Keys + now.Keys && LeftBy(docs, known, now, id).Some? :: LeftBy(docs, known, now, id).value
  }

  lemma RepairedOverEntry(docs: map<ObjectId, Operator>, known: map<string, Resource>, now: map<string, Resource>, id: string)
    ensures Entry(RepairedOver(docs, known, now), id) == LeftBy(docs, known, now, id)
  {
    hide OwnerKnown;
  }

  /**
   What such a repair leaves at each id, in terms of the three arguments: the resource as it is now where
   the owner had all four rights at the listing, the listed resource with the owner's rights set where
   one was missing, nothing at a listed id without a document, and no change at any other id.
   */
  lemma RepairedOverSays(docs: map<ObjectId, Operator>, known: map<string, Resource>, now: map<string, Resource>, id: string)
    ensures var r := RepairedOver(docs, known, now);
            if id !in docs then
              if id in known then id !in r else (id in r <==> id in now) && (id in r ==> r[id] == now[id])
            else if id in known && docs[id].userId in known[id].users &&
                    known[id].users[docs[id].userId] == Grant(true, true, true, true) then
              (id in r <==> id in now) && (id in r ==> r[id] == now[id])
            else
              id in r && r[id] == Resource(
                (if id in known then known[id].users else map[])[docs[id].userId := Grant(true, true, true, true)],
                if id in known then known[id].groups else map[],
                if id in known then known[id].roles else map[])
  {
    RepairedOverEntry(docs, known, now, id);
  }

  lemma SameEntriesSameMap(a: map<string, Resource>, b: map<string, Resource>)
    requires forall id :: Entry(a, id) == Entry(b, id)
    ensures a == b
  {
    forall id ensures id in a <==> id in b { assert Entry(a, id) == Entry(b, id); }
    forall id | id in a ensures a[id] == b[id] { assert Entry(a, id) == Entry(b, id); }
  }

  /** Nobody else about: the repair described above. */
  lemma RepairedOverItsListing(docs: map<ObjectId, Operator>, known: map<string, Resource>)
    ensures RepairedOver(docs, known, known) == Repaired(docs, known)
  {
    forall id ensures Entry(RepairedOver(docs, known, known), id) == Entry(Repaired(docs, known), id) {
      RepairedOverEntry(docs, known, known, id);
      if OwnerKnown(docs, known, id) {
        SkipsExactlyTheIdleWrites(known[id], docs[id].userId);
      }
    }
    SameEntriesSameMap(RepairedOver(docs, known, known), Repaired(docs, known));
  }

  function WithoutOwner(r: Resource, owner: string): Resource { r.(users := r.users - {owner}) }

  /**
   The grants that others have meanwhile given or taken on an operator are kept exactly when the owner
   lacked no right at the listing or the grants are still those listed.
   */
  lemma EditsDuringRepairKeptExactlyWhen(docs: map<ObjectId, Operator>, known: map<string, Resource>, now: map<string, Resource>, id: ObjectId)
    requires id in docs && id in now
    ensures var owner := docs[id].userId;
            id in RepairedOver(docs, known, now) &&
            (WithoutOwner(RepairedOver(docs, known, now)[id], owner) == WithoutOwner(now[id], owner)
             <==> OwnerKnown(docs, known, id) || WithoutOwner(ResourceAt(known, id), owner) == WithoutOwner(now[id], owner))
  {
    RepairedOverEntry(docs, known, now, id);
    var users, owner := ResourceAt(known, id).users, docs[id].userId;
    assert users[owner := FULL] - {owner} == users - {owner};
  }

  // ---------------------------------------------------------------- inserts and deletes

  function InsertOne(s: Stores, id: ObjectId, body: Operator, f: Fault): (Stores, Option<Error>) {
    var stored := s.(docs := s.docs[id := Fresh(body)], issued := s.issued + {id});
    match f.delivery
    case NotSent => (s, Some(ServerError))
    case AckLost => (stored, Some(ServerError))
    case Acknowledged =>
      (if f.call == FailsBefore then stored else stored.(perms := s.perms[id := WithDefault(NOBODY, body.userId)]),
       if f.call == Succeeds then None else Some(ServerError))
  }

  /** The document goes by its parsed id, the permission resource by the id as it was given. */
  function DeleteOne(s: Stores, id: string, f: Fault): (Stores, Option<Error>) {
    match ParseObjectId(id)
    case None => (s, Some(InvalidInput))
    case Some(objId) =>
      if f.delivery == NotSent then (s, Some(ServerError))
      else if objId !in s.docs then (s, Some(if f.delivery == AckLost then ServerError else NotFound))
      else
        var gone := s.(docs := s.docs - {objId});
        if f.delivery == AckLost then (gone, Some(ServerError))
        else (if f.call == FailsBefore then gone else gone.(perms := s.perms - {id}),
              if f.call == Succeeds then None else Some(ServerError))
  }

  /** A delete without faults takes the resource along exactly when the id is written canonically. */
  lemma DeleteTakesResourceExactlyWhen(s: Stores, given: string, id: ObjectId)
    requires ValidStores(s) && ParseObjectId(given) == Some(id) && id in s.docs && id in s.perms
    ensures DeleteOne(s, given, CLEAN).1 == None && id !in DeleteOne(s, given, CLEAN).0.docs
    ensures id !in DeleteOne(s, given, CLEAN).0.perms <==> given == id
  {
    hide ParseObjectId;
  }

  /** One delete after the other until one fails. */
  function DeleteBatch(s: Stores, ids: seq<string>, faults: nat -> Fault): (Stores, Option<Error>)
    decreases |ids|
  {
    if ids == [] then (s, None)
    else
      var n := |ids| - 1;
      var before := DeleteBatch(s, ids[..n], faults);
      if before.1.Some? then before else DeleteOne(before.0, ids[n], faults(n))
  }

  lemma {:induction false} BatchStopsAtError(s: Stores, ids: seq<string>, faults: nat -> Fault, i: nat)
    requires i <= |ids| && DeleteBatch(s, ids[..i], faults).1.Some?
    ensures DeleteBatch(s, ids, faults) == DeleteBatch(s, ids[..i], faults)
    decreases |ids|
  {
    hide DeleteOne;
    if i == |ids| {
      assert ids[..i] == ids;
    } else {
      var n := |ids| - 1;
      assert ids[..n][..i] == ids[..i];
      BatchStopsAtError(s, ids[..n], faults, i);
    }
  }

  /** A batch ends with the first delete that fails, its error and what was left by then. */
  lemma BatchEndsWithFirstFailure(s: Stores, ids: seq<string>, faults: nat -> Fault, i: nat)
    requires i < |ids| && DeleteBatch(s, ids[..i], faults).1 == None
    requires DeleteOne(DeleteBatch(s, ids[..i], faults).0, ids[i], faults(i)).1.Some?
    ensures DeleteBatch(s, ids, faults) == DeleteOne(DeleteBatch(s, ids[..i], faults).0, ids[i], faults(i))
  {
    hide DeleteOne;
    assert ids[..i + 1][..i] == ids[..i];
    BatchStopsAtError(s, ids, faults, i + 1);
  }

  function DocumentsOf(ids: seq<string>): set<ObjectId> {
    set id | id in ids && ParseObjectId(id).Some? :: ParseObjectId(id).value
  }

  function IdsIn(ids: seq<string>): set<string> { set id | id in ids }

  /** Each of these ids names a document, and no two the same. */
  ghost predicate NameDocuments(s: Stores, ids: seq<string>) {
    && (forall i :: 0 <= i < |ids| ==> ParseObjectId(ids[i]).Some? && ParseObjectId(ids[i]).value in s.docs)
    && (forall i, j :: 0 <= i < j < |ids| ==> ParseObjectId(ids[i]) != ParseObjectId(ids[j]))
  }

  /** The documents of the first `k` ids are gone, and the resources of the first `r`. */
  ghost predicate PrefixGone(s: Stores, ids: seq<string>, k: nat, r: nat, t: Stores) {
    && r <= k <= |ids| && k <= r + 1
    && NameDocuments(s, ids[..k])
    && t == Stores(s.docs - DocumentsOf(ids[..k]), s.issued, s.perms - IdsIn(ids[..r]))
  }

  lemma NamesOneMore(ids: seq<string>, id: string)
    ensures IdsIn(ids + [id]) == IdsIn(ids) + {id}
    ensures DocumentsOf(ids + [id]) == DocumentsOf(ids) + if ParseObjectId(id).Some? then {ParseObjectId(id).value} else {}
  {
    hide ParseObjectId;
    forall x ensures x in DocumentsOf(ids + [id]) <==> x in DocumentsOf(ids) || ParseObjectId(id) == Some(x) {
      if x in DocumentsOf(ids + [id]) {
        var y :| y in ids + [id] && ParseObjectId(y) == Some(x);
      }
      if x in DocumentsOf(ids) {
        var y :| y in ids && ParseObjectId(y) == Some(x);
        assert y in ids + [id];
      }
      if ParseObjectId(id) == Some(x) {
        assert id in ids + [id];
      }
    }
  }

  lemma NotDeletedYet(s: Stores, ids: seq<string>, id: ObjectId)
    requires id !in DocumentsOf(ids)
    ensures forall i :: 0 <= i < |ids| ==> ParseObjectId(ids[i]) != Some(id)
  {
    hide ParseObjectId;
  }

  /**
   Wherever a batch stops, the deleted documents are those of a prefix of the ids, and their
   resources are gone too, except possibly that of the last one.
   */
  lemma {:induction false} BatchDeletesPrefix(s: Stores, ids: seq<string>, faults: nat -> Fault)
    ensures var (t, err) := DeleteBatch(s, ids, faults);
            if err == None then PrefixGone(s, ids, |ids|, |ids|, t)
            else exists k, r :: PrefixGone(s, ids, k, r, t)
    decreases |ids|
  {
    hide ParseObjectId, DocumentsOf, IdsIn;
    if ids == [] {
      NothingNamed();
      assert PrefixGone(s, ids, 0, 0, s);
      return;
    }
    var n := |ids| - 1;
    BatchDeletesPrefix(s, ids[..n], faults);
    var (t, err) := DeleteBatch(s, ids[..n], faults);
    assert ids[..n] + [ids[n]] == ids == ids[..|ids|];
    if err.Some? {
      var k: nat, r: nat :| PrefixGone(s, ids[..n], k, r, t);
      assert ids[..n][..k] == ids[..k] && ids[..n][..r] == ids[..r];
      assert PrefixGone(s, ids, k, r, t);
    } else {
      assert ids[..n][..n] == ids[..n];
      assert PrefixGone(s, ids, n, n, t);
      OneMoreGone(s, ids, n, t, faults(n));
    }
  }

  lemma NothingNamed()
    ensures DocumentsOf([]) == {} && IdsIn([]) == {}
  {
  }

  lemma OneMoreGone(s: Stores, ids: seq<string>, n: nat, t: Stores, f: Fault)
    requires n < |ids| && PrefixGone(s, ids, n, n, t)
    ensures var (u, err) := DeleteOne(t, ids[n], f);
            && (err == None ==> PrefixGone(s, ids, n + 1, n + 1, u))
            && exists k, r :: PrefixGone(s, ids, k, r, u)
  {
    hide ParseObjectId;
    var (u, err) := DeleteOne(t, ids[n], f);
    assert ids[..n] + [ids[n]] == ids[..n + 1];
    NamesOneMore(ids[..n], ids[n]);
    if u.docs == t.docs && u == t {
      assert PrefixGone(s, ids, n, n, u);
    } else {
      var objId := ParseObjectId(ids[n]).value;
      assert objId in t.docs;
      NotDeletedYet(s, ids[..n], objId);
      hide DocumentsOf, IdsIn;
      assert NameDocuments(s, ids[..n + 1]);
      assert s.docs - DocumentsOf(ids[..n]) - {objId} == s.docs - DocumentsOf(ids[..n + 1]);
      assert s.perms - IdsIn(ids[..n]) - {ids[n]} == s.perms - IdsIn(ids[..n + 1]);
      assert PrefixGone(s, ids, n + 1, n + 1, u) || PrefixGone(s, ids, n + 1, n, u);
    }
  }

  /** Without faults a batch goes through exactly when its ids name different existing documents. */
  lemma {:induction false} BatchSucceedsExactlyWhen(s: Stores, ids: seq<string>, faults: nat -> Fault)
    requires forall i :: 0 <= i < |ids| ==> faults(i) == CLEAN
    ensures DeleteBatch(s, ids, faults).1 == None <==> NameDocuments(s, ids)
    decreases |ids|
  {
    hide ParseObjectId, DocumentsOf, IdsIn;
    BatchDeletesPrefix(s, ids, faults);
    assert ids[..|ids|] == ids;
    if NameDocuments(s, ids) && ids != [] {
      var n := |ids| - 1;
      assert NameDocuments(s, ids[..n]);
      BatchSucceedsExactlyWhen(s, ids[..n], faults);
      BatchDeletesPrefix(s, ids[..n], faults);
      assert ids[..n][..n] == ids[..n];
      StillThereUnlessNamed(ids[..n], ParseObjectId(ids[n]).value);
    }
  }

  lemma StillThereUnlessNamed(ids: seq<string>, id: ObjectId)
    requires forall i :: 0 <= i < |ids| ==> ParseObjectId(ids[i]) != Some(id)
    ensures id !in DocumentsOf(ids)
  {
    hide ParseObjectId;
  }

  // ---------------------------------------------------------------- the repository

  ghost predicate Lists(listing: seq<(string, Resource)>, perms: map<string, Resource>) {
    && (forall entry :: entry in listing ==> Entry(perms, entry.0) == Some(entry.1))
    && (forall id :: id in perms ==> (id, perms[id]) in listing)
  }

  method Collected(listing: seq<(string, Resource)>, ghost perms: map<string, Resource>) returns (m: map<string, Resource>)
    requires Lists(listing, perms)
    ensures m == perms
  {
    m := map[];
    var i := 0;
    while i < |listing|
      invariant 0 <= i <= |listing|
      invariant forall id :: id in m ==> Entry(perms, id) == Some(m[id])
      invariant forall j :: 0 <= j < i ==> listing[j].0 in m
    {
      assert listing[i] in listing;
      m := m[listing[i].0 := listing[i].1];
      i := i + 1;
    }
    assert forall id :: id in perms ==> id in m by {
      forall id | id in perms ensures id in m {
        assert (id, perms[id]) in listing;
      }
    }
  }

  ghost predicate GrantedSoFar(docs: map<ObjectId, Operator>, known: map<string, Resource>, base: map<string, Resource>,
                               done: seq<ObjectId>, perms: map<string, Resource>) {
    forall id :: Entry(perms, id) == if id in done then LeftBy(docs, known, base, id) else Entry(base, id)
  }

  lemma NothingGranted(docs: map<ObjectId, Operator>, known: map<string, Resource>, base: map<string, Resource>)
    ensures GrantedSoFar(docs, known, base, [], base)
  {
  }

  lemma GrantsOneMore(docs: map<ObjectId, Operator>, known: map<string, Resource>, base: map<string, Resource>,
                      done: seq<ObjectId>, id: ObjectId, perms: map<string, Resource>)
    requires GrantedSoFar(docs, known, base, done, perms) && id in docs
    ensures !OwnerKnown(docs, known, id) ==>
              GrantedSoFar(docs, known, base, done + [id], perms[id := WithDefault(ResourceAt(known, id), docs[id].userId)])
    ensures OwnerKnown(docs, known, id) ==> GrantedSoFar(docs, known, base, done + [id], perms)
  {
    hide OwnerKnown;
  }

  lemma GrantingIsPartOfTheWay(docs: map<ObjectId, Operator>, known: map<string, Resource>, base: map<string, Resource>,
                               done: seq<ObjectId>, perms: map<string, Resource>)
    ensures GrantedSoFar(docs, known, base, done, perms) ==> PartOfTheWay(base, RepairedOver(docs, known, base), perms)
  {
    hide LeftBy, RepairedOver;
    forall id ensures Entry(RepairedOver(docs, known, base), id) == LeftBy(docs, known, base, id) {
      RepairedOverEntry(docs, known, base, id);
    }
  }

  ghost predicate OrphansLeft(docs: map<ObjectId, Operator>, known: map<string, Resource>, base: map<string, Resource>,
                              rest: set<string>, perms: map<string, Resource>) {
    forall id :: Entry(perms, id) == if id !in docs && id in rest then Entry(base, id) else LeftBy(docs, known, base, id)
  }

  lemma AllOrphansLeft(docs: map<ObjectId, Operator>, known: map<string, Resource>, base: map<string, Resource>,
                       operators: seq<ObjectId>, perms: map<string, Resource>)
    requires (forall id :: id in operators <==> id in docs) && GrantedSoFar(docs, known, base, operators, perms)
    ensures OrphansLeft(docs, known, base, known.Keys, perms)
  {
    hide OwnerKnown;
  }

  lemma OrphansOneLess(docs: map<ObjectId, Operator>, known: map<string, Resource>, base: map<string, Resource>,
                       rest: set<string>, id: string, perms: map<string, Resource>)
    requires OrphansLeft(docs, known, base, rest, perms) && id in known
    ensures id in docs ==> OrphansLeft(docs, known, base, rest - {id}, perms)
    ensures id !in docs ==> OrphansLeft(docs, known, base, rest - {id}, perms - {id})
  {
    hide OwnerKnown;
  }

  lemma RemovingIsPartOfTheWay(docs: map<ObjectId, Operator>, known: map<string, Resource>, base: map<string, Resource>,
                               rest: set<string>, perms: map<string, Resource>)
    ensures OrphansLeft(docs, known, base, rest, perms) ==> PartOfTheWay(base, RepairedOver(docs, known, base), perms)
  {
    hide LeftBy, RepairedOver;
    forall id ensures Entry(RepairedOver(docs, known, base), id) == LeftBy(docs, known, base, id) {
      RepairedOverEntry(docs, known, base, id);
    }
  }

  lemma NoOrphansLeft(docs: map<ObjectId, Operator>, known: map<string, Resource>, base: map<string, Resource>, perms: map<string, Resource>)
    requires OrphansLeft(docs, known, base, {}, perms)
    ensures perms == RepairedOver(docs, known, base)
  {
    hide LeftBy, RepairedOver;
    forall id ensures Entry(perms, id) == Entry(RepairedOver(docs, known, base), id) {
      RepairedOverEntry(docs, known, base, id);
    }
    SameEntriesSameMap(perms, RepairedOver(docs, known, base));
  }

  lemma NothingToGrantNorRemove(docs: map<ObjectId, Operator>, known: map<string, Resource>, operators: seq<ObjectId>)
    requires forall id :: id in operators <==> id in docs
    ensures InSync(docs, known) <==> known.Keys <= docs.Keys && forall id :: id in operators ==> OwnerKnown(docs, known, id)
  {
  }

  class Repository {
    var docs: map<ObjectId, Operator>
    var issued: set<ObjectId>
    var perms: map<string, Resource>

    function State(): Stores
      reads this
    {
      Stores(docs, issued, perms)
    }

    constructor (s: Stores)
      ensures State() == s
    {
      docs, issued, perms := s.docs, s.issued, s.perms;
    }

    method SetPermission(id: string, r: Resource, call: Call) returns (ok: bool)
      modifies this`perms
      ensures ok == (call == Succeeds)
      ensures perms == if call == FailsBefore then old(perms) else old(perms)[id := r]
    {
      if call != FailsBefore {
        perms := perms[id := r];
      }
      return call == Succeeds;
    }

    method RemoveResource(id: string, call: Call) returns (ok: bool)
      modifies this`perms
      ensures ok == (call == Succeeds)
      ensures perms == if call == FailsBefore then old(perms) else old(perms) - {id}
    {
      if call != FailsBefore {
        perms := perms - {id};
      }
      return call == Succeeds;
    }

    /** `newId` is the id the database makes up. */
    method InsertOperator(newId: ObjectId, body: Operator, f: Fault) returns (id: string, err: Option<Error>)
      modifies this
      ensures (State(), err) == InsertOne(old(State()), newId, body, f)
      ensures id == if f.delivery == Acknowledged then newId else ""
      ensures err == if f.delivery == Acknowledged && f.call == Succeeds then None else Some(ServerError)
      ensures f.delivery == NotSent ==> State() == old(State())
      ensures f.delivery != NotSent ==>
                && issued == old(issued) + {newId}
                && docs == old(docs)[newId := Operator(
                     body.name, body.image, body.description, body.deploymentType, body.cost, body.userId, body.pub,
                     body.config, body.inputs, body.outputs, Some(1), [])]
      ensures perms == if f.delivery != Acknowledged || f.call == FailsBefore then old(perms)
                       else old(perms)[newId := Resource(map[body.userId := Grant(true, true, true, true)], map[], map[])]
    {
      if f.delivery != NotSent {
        docs, issued := docs[newId := Fresh(body)], issued + {newId};
      }
      if f.delivery != Acknowledged {
        return "", Some(ServerError);
      }
      var ok := SetPermission(newId, WithDefault(NOBODY, body.userId), f.call);
      return newId, if ok then None else Some(ServerError);
    }

    /** Nothing is refused but for rights, and the refusal touches neither store. */
    method CheckAdministrate(ids: seq<string>, one: Rights, many: Option<map<string, bool>>) returns (err: Option<Error>)
      ensures err == AdministrateError(ids, one, many)
      ensures |ids| == 1 ==>
                err == match one case Granted => None case Denied => Some(MissingRights) case Unavailable => Some(ServerError)
      ensures |ids| != 1 ==> (err == None <==> many.Some? && forall id :: id in many.value ==> many.value[id])
      ensures |ids| != 1 && err.Some? ==> err == Some(if many == None then ServerError else MissingRights)
    {
      if |ids| == 1 {
        return if one == Granted then None else Some(if one == Denied then MissingRights else ServerError);
      }
      err := CheckAdministrateMany(many);
    }

    method CheckAdministrateMany(many: Option<map<string, bool>>) returns (err: Option<Error>)
      ensures err == ManyError(many)
      ensures err == None <==> many.Some? && forall id :: id in many.value ==> many.value[id]
      ensures err == Some(ServerError) <==> many == None
      ensures err == Some(MissingRights) <==> many.Some? && exists id :: id in many.value && !many.value[id]
    {
      if many == None {
        return Some(ServerError);
      }
      var answers := many.value;
      var rest := answers.Keys;
      while rest != {}
        invariant rest <= answers.Keys
        invariant forall id :: id in answers && id !in rest ==> answers[id]
        decreases |rest|
      {
        ghost var some := Member(rest);
        var id :| id in rest;
        if !answers[id] {
          return Some(MissingRights);
        }
        rest := rest - {id};
      }
      return None;
    }

    method DeleteOperator(id: string, rights: Rights, f: Fault) returns (err: Option<Error>)
      modifies this
      ensures rights == Granted ==> (State(), err) == DeleteOne(old(State()), id, f)
      ensures rights != Granted ==> State() == old(State()) && err == Some(if rights == Denied then MissingRights else ServerError)
    {
      if rights != Granted {
        return Some(if rights == Denied then MissingRights else ServerError);
      }
      err := FindAndDelete(id, f);
    }

    /** The document, then its permission resource. */
    method FindAndDelete(id: string, f: Fault) returns (err: Option<Error>)
      modifies this
      ensures (State(), err) == DeleteOne(old(State()), id, f)
      ensures ParseObjectId(id) == None ==> err == Some(InvalidInput) && State() == old(State())
      ensures ParseObjectId(id).Some? && (f.delivery == NotSent || ParseObjectId(id).value !in old(docs)) ==>
                err == Some(if f.delivery == Acknowledged then NotFound else ServerError) && State() == old(State())
      ensures ParseObjectId(id).Some? && f.delivery != NotSent && ParseObjectId(id).value in old(docs) ==>
                && docs == old(docs) - {ParseObjectId(id).value} && issued == old(issued)
                && perms == (if f.delivery == Acknowledged && f.call != FailsBefore then old(perms) - {id} else old(perms))
                && err == if f.delivery == Acknowledged && f.call == Succeeds then None else Some(ServerError)
    {
      var objId := ParseObjectId(id);
      if objId == None {
        return Some(InvalidInput);
      }
      if f.delivery == NotSent {
        return Some(ServerError);
      }
      var found := objId.value in docs;
      docs := docs - {objId.value};
      if f.delivery == AckLost {
        assert !found ==> docs == old(docs);
        return Some(ServerError);
      }
      if !found {
        assert docs == old(docs);
        return Some(NotFound);
      }
      var ok := RemoveResource(id, f.call);
      return if ok then None else Some(ServerError);
    }

    method DeleteOperators(ids: seq<string>, many: Option<map<string, bool>>, faults: nat -> Fault)
      returns (err: Option<Error>)
      modifies this
      ensures ManyError(many) == None ==> (State(), err) == DeleteBatch(old(State()), ids, faults)
      ensures ManyError(many).Some? ==> State() == old(State()) && err == ManyError(many)
      ensures many == None ==> State() == old(State()) && err == Some(ServerError)
      ensures many.Some? && (exists id :: id in many.value && !many.value[id]) ==>
                State() == old(State()) && err == Some(MissingRights)
      ensures many.Some? && (forall id :: id in many.value ==> many.value[id]) ==>
                (State(), err) == DeleteBatch(old(State()), ids, faults)
    {
      hide DeleteOne, ManyError;
      err := CheckAdministrateMany(many);
      if err.Some? {
        return;
      }
      var i := 0;
      while i < |ids|
        invariant 0 <= i <= |ids|
        invariant err == None && (State(), err) == DeleteBatch(old(State()), ids[..i], faults)
      {
        assert ids[..i + 1][..i] == ids[..i];
        err := FindAndDelete(ids[i], faults(i));
        i := i + 1;
        if err.Some? {
          BatchStopsAtError(old(State()), ids, faults, i);
          return;
        }
      }
      assert ids[..i] == ids;
    }

    /**
     The repair.  `order` is the listing of the documents, `listing` that of the resources; `edited` is
     what others have made of the resources by the time of its own writes, `faults` are the fates of
     those, and `calls` counts them.
     */
    method ValidateOperatorPermissions(order: Option<seq<ObjectId>>, listing: Option<seq<(string, Resource)>>,
                                       edited: map<string, Resource>, faults: nat -> Call)
      returns (err: Option<Error>, calls: nat)
      requires order.Some? ==> forall id :: id in order.value <==> id in docs
      requires listing.Some? ==> Lists(listing.value, perms)
      modifies this`perms
      ensures order == None || listing == None ==> err.Some? && perms == old(perms) && calls == 0
      ensures err == None ==> perms == RepairedOver(docs, old(perms), edited)
      ensures err == None && edited == old(perms) ==> perms == Repaired(docs, old(perms))
      ensures err == None ==> (calls == 0 <==> InSync(docs, old(perms)))
      ensures order.Some? && listing.Some? ==> PartOfTheWay(edited, RepairedOver(docs, old(perms), edited), perms)
      ensures edited == old(perms) ==> PartOfTheWay(old(perms), Repaired(docs, old(perms)), perms)
      ensures order.Some? && listing.Some? && calls == 0 ==> perms == edited
      ensures err.Some? && order.Some? && listing.Some? ==> calls > 0 && faults(calls - 1) != Succeeds
    {
      hide InSync, Repaired, RepairedOver, PartOfTheWay, GrantedSoFar, OwnerKnown;
      RepairedOverItsListing(docs, perms);
      EndsOfTheWay(perms, Repaired(docs, perms));
      EndsOfTheWay(edited, RepairedOver(docs, perms, edited));
      if order == None || listing == None {
        return Some(ServerError), 0;
      }
      var known := Collected(listing.value, perms);
      perms := edited;
      err, calls := GrantOwners(known, edited, order.value, faults);
      if err.Some? {
        return;
      }
      err, calls := RemoveOrphans(known, edited, order.value, faults, calls);
      NothingToGrantNorRemove(docs, known, order.value);
    }

    /** The first loop: every owner gets all rights, one write for each that lacked some when listed. */
    method GrantOwners(known: map<string, Resource>, ghost base: map<string, Resource>, operators: seq<ObjectId>, faults: nat -> Call)
      returns (err: Option<Error>, calls: nat)
      requires perms == base && forall id :: id in operators <==> id in docs
      modifies this`perms
      ensures calls == 0 ==> perms == old(perms) && err == None
      ensures err == None ==> GrantedSoFar(docs, known, base, operators, perms)
      ensures err == None ==> (calls == 0 <==> forall id :: id in operators ==> OwnerKnown(docs, known, id))
      ensures err.Some? ==> PartOfTheWay(base, RepairedOver(docs, known, base), perms) && faults(calls - 1) != Succeeds
    {
      hide PartOfTheWay, OwnerHasFullPermissions, GrantedSoFar, RepairedOver;
      err, calls := None, 0;
      var i := 0;
      NothingGranted(docs, known, base);
      while i < |operators|
        invariant 0 <= i <= |operators|
        invariant GrantedSoFar(docs, known, base, operators[..i], perms)
        invariant calls == 0 ==> perms == old(perms)
        invariant calls == 0 <==> forall id :: id in operators[..i] ==> OwnerKnown(docs, known, id)
      {
        var id := operators[i];
        var owner := docs[id].userId;
        ghost var done := operators[..i];
        assert operators[..i + 1] == done + [id];
        i := i + 1;
        GrantsOneMore(docs, known, base, done, id, perms);
        if id in known && OwnerHasFullPermissions(known[id], owner) {
          continue;
        }
        var ok := SetPermission(id, WithDefault(if id in known then known[id] else NOBODY, owner), faults(calls));
        calls := calls + 1;
        assert !OwnerKnown(docs, known, id) && id in operators[..i];
        if !ok {
          GrantingIsPartOfTheWay(docs, known, base, done, perms);
          GrantingIsPartOfTheWay(docs, known, base, done + [id], perms);
          return Some(ServerError), calls;
        }
      }
      assert operators[..i] == operators;
    }

    /** The second loop: resources listed without a document go. */
    method RemoveOrphans(known: map<string, Resource>, ghost base: map<string, Resource>, dbIds: seq<ObjectId>, faults: nat -> Call, before: nat)
      returns (err: Option<Error>, calls: nat)
      requires forall id :: id in dbIds <==> id in docs
      requires GrantedSoFar(docs, known, base, dbIds, perms)
      modifies this`perms
      ensures calls >= before && (calls == before ==> perms == old(perms) && err == None)
      ensures err == None ==> perms == RepairedOver(docs, known, base)
      ensures err == None ==> (calls == before <==> known.Keys <= docs.Keys)
      ensures err.Some? ==> PartOfTheWay(base, RepairedOver(docs, known, base), perms) && faults(calls - 1) != Succeeds
    {
      hide PartOfTheWay, OrphansLeft, GrantedSoFar, RepairedOver;
      err, calls := None, before;
      var rest := known.Keys;
      AllOrphansLeft(docs, known, base, dbIds, perms);
      while rest != {}
        invariant rest <= known.Keys && calls >= before
        invariant OrphansLeft(docs, known, base, rest, perms)
        invariant calls == before <==> known.Keys - rest <= docs.Keys
        invariant calls == before ==> perms == old(perms)
        decreases |rest|
      {
        ghost var some := Member(rest);
        var id :| id in rest;
        OrphansOneLess(docs, known, base, rest, id, perms);
        var stays := id in dbIds;
        ghost var left := rest;
        rest := rest - {id};
        if stays {
          continue;
        }
        assert id in known.Keys - rest;
        var ok := RemoveResource(id, faults(calls));
        calls := calls + 1;
        if !ok {
          RemovingIsPartOfTheWay(docs, known, base, left, perms);
          RemovingIsPartOfTheWay(docs, known, base, rest, perms);
          return Some(ServerError), calls;
        }
      }
      NoOrphansLeft(docs, known, base, perms);
    }
  }

  function ManyError(many: Option<map<string, bool>>): Option<Error> {
    if many == None then Some(ServerError)
    else if exists id :: id in many.value && !many.value[id] then Some(MissingRights)
    else None
  }

  /** An answer without refusals grants every id of the batch exactly when it mentions them all. */
  lemma ManyGrantsExactlyWhen(ids: seq<string>, many: Option<map<string, bool>>)
    requires ManyError(many) == None
    ensures (forall id :: id in ids ==> id in many.value && many.value[id]) <==> IdsIn(ids) <= many.value.Keys
  {
    if IdsIn(ids) <= many.value.Keys {
      forall id | id in ids ensures id in many.value && many.value[id] { assert id in IdsIn(ids); }
    }
  }

  function AdministrateError(ids: seq<string>, one: Rights, many: Option<map<string, bool>>): Option<Error> {
    if |ids| != 1 then ManyError(many)
    else if one == Granted then None
    else Some(if one == Denied then MissingRights else ServerError)
  }

  // ---------------------------------------------------------------- whole runs

  datatype Step =
    | Insert(id: ObjectId, body: Operator, fault: Fault)
    | Delete(given: string, fault: Fault)
    /** A write to a document, at the moment it takes effect. */
    | Write(req: Request)
    /** Somebody edits the grants of a resource at the permission service. */
    | Share(id: string, resource: Resource)
    /** A repair that got as far as `perms`. */
    | Repair(perms: map<string, Resource>)

  ghost predicate Allowed(s: Stores, step: Step) {
    match step
    case Insert(id, _, _) => id !in s.issued && ParseObjectId(id) == Some(id)
    case Delete(_, _) => true
    case Write(req) => req.id in s.docs && Sequential(req, s.docs[req.id]).Ok?
    case Share(id, _) => id in s.perms
    case Repair(perms) => PartOfTheWay(s.perms, Repaired(s.docs, s.perms), perms)
  }

  function Next(s: Stores, step: Step): Stores {
    match step
    case Insert(id, body, f) => InsertOne(s, id, body, f).0
    case Delete(given, f) => DeleteOne(s, given, f).0
    case Write(req) =>
      if req.id in s.docs && Sequential(req, s.docs[req.id]).Ok?
      then s.(docs := s.docs[req.id := Sequential(req, s.docs[req.id]).value])
      else s
    case Share(id, r) => s.(perms := s.perms[id := r])
    case Repair(perms) => s.(perms := perms)
  }

  function After(s: Stores, run: seq<Step>): Stores {
    if run == [] then s else Next(After(s, run[..|run| - 1]), run[|run| - 1])
  }

  ghost predicate AllowedRun(s: Stores, run: seq<Step>) {
    forall i :: 0 <= i < |run| ==> Allowed(After(s, run[..i]), run[i])
  }

  lemma AllowedPrefix(s: Stores, run: seq<Step>)
    requires AllowedRun(s, run) && run != []
    ensures AllowedRun(s, run[..|run| - 1]) && Allowed(After(s, run[..|run| - 1]), run[|run| - 1])
  {
    hide Allowed, After;
    var init := run[..|run| - 1];
    forall i | 0 <= i < |init| ensures Allowed(After(s, init[..i]), init[i]) {
      assert init[..i] == run[..i];
    }
  }

  /** Ids for which one store has an entry and the other has none. */
  function Drift(s: Stores): set<string> { (s.docs.Keys - s.perms.Keys) + (s.perms.Keys - s.docs.Keys) }

  /** The id a step may leave in one store only: it stopped half-way, or its id was not written canonically. */
  function LeftHalfDone(step: Step): set<string> {
    match step
    case Insert(id, _, f) => if f == CLEAN then {} else {id}
    case Delete(given, f) =>
      if ParseObjectId(given) == None || (f == CLEAN && ParseObjectId(given) == Some(given)) then {}
      else {ParseObjectId(given).value}
    case Write(_) => {}
    case Share(_, _) => {}
    case Repair(_) => {}
  }

  function AllHalfDone(run: seq<Step>): set<string> {
    if run == [] then {} else AllHalfDone(run[..|run| - 1]) + LeftHalfDone(run[|run| - 1])
  }

  lemma StepKeepsValid(s: Stores, step: Step)
    requires ValidStores(s) && Allowed(s, step)
    ensures ValidStores(Next(s, step)) && s.issued <= Next(s, step).issued
  {
    hide ParseObjectId, PartOfTheWay, Sequential;
  }

  lemma {:induction false} RunKeepsValid(s: Stores, run: seq<Step>)
    requires ValidStores(s) && AllowedRun(s, run)
    ensures ValidStores(After(s, run)) && s.issued <= After(s, run).issued
    decreases |run|
  {
    hide Allowed, Next, ValidStores;
    if run != [] {
      AllowedPrefix(s, run);
      RunKeepsValid(s, run[..|run| - 1]);
      StepKeepsValid(After(s, run[..|run| - 1]), run[|run| - 1]);
    }
  }

  lemma StepDrift(s: Stores, step: Step)
    requires ValidStores(s) && Allowed(s, step)
    ensures Drift(Next(s, step)) <= Drift(s) + LeftHalfDone(step)
  {
    hide ParseObjectId, Sequential;
    forall id | id in Drift(Next(s, step))
      ensures id in Drift(s) + LeftHalfDone(step)
    {
      if step.Repair? {
        assert Entry(step.perms, id) == Entry(s.perms, id) || Entry(step.perms, id) == Entry(Repaired(s.docs, s.perms), id);
      }
    }
  }

  /** Over any run the two stores disagree only about ids some step left half done. */
  lemma {:induction false} DriftIsHalfDone(s: Stores, run: seq<Step>)
    requires ValidStores(s) && AllowedRun(s, run)
    ensures Drift(After(s, run)) <= Drift(s) + AllHalfDone(run)
    decreases |run|
  {
    hide Allowed, Next, Drift, LeftHalfDone, ValidStores;
    if run != [] {
      AllowedPrefix(s, run);
      var init := run[..|run| - 1];
      DriftIsHalfDone(s, init);
      RunKeepsValid(s, init);
      StepDrift(After(s, init), run[|run| - 1]);
    }
  }

  /** The grants of everyone but the owner, as the last edit in the run left them. */
  function LastShared(run: seq<Step>, id: ObjectId, owner: string, start: Resource): Resource {
    if run == [] then start
    else
      match run[|run| - 1]
      case Share(at, r) =>
        if at == id then r.(users := r.users - {owner}) else LastShared(run[..|run| - 1], id, owner, start)
      case _ => LastShared(run[..|run| - 1], id, owner, start)
  }

  /** No request changes whose operator it is. */
  lemma RequestKeepsOwner(req: Request, doc: Operator)
    ensures Sequential(req, doc).Ok? ==> Sequential(req, doc).value.userId == doc.userId
  {
    hide Put, RemoveVersion, CheckTopLevel, Newest;
  }

  lemma StepKeepsOthers(s: Stores, step: Step, id: ObjectId)
    requires ValidStores(s) && Allowed(s, step) && id in s.issued && id in Next(s, step).docs
    ensures id in s.docs && Next(s, step).docs[id].userId == s.docs[id].userId
    ensures Others(Next(s, step), id) ==
            if step.Share? && step.id == id then step.resource.(users := step.resource.users - {s.docs[id].userId}) else Others(s, id)
  {
    hide Sequential;
    if step.Repair? {
      hide ParseObjectId, Repaired;
      PartialRepairKeepsOthers(s, step.perms, id);
    } else if step.Write? {
      RequestKeepsOwner(step.req, s.docs[step.req.id]);
    } else {
      hide ParseObjectId;
    }
  }

  lemma PartialRepairKeepsOthers(s: Stores, perms: map<string, Resource>, id: ObjectId)
    requires id in s.docs && PartOfTheWay(s.perms, Repaired(s.docs, s.perms), perms)
    ensures Others(s.(perms := perms), id) == Others(s, id)
  {
    RepairKeepsOthers(s, id);
    assert Entry(perms, id) == Entry(s.perms, id) || Entry(perms, id) == Entry(Repaired(s.docs, s.perms), id);
  }

  /**
   Other users', groups' and roles' grants on an operator follow the edits made to them, through any
   number of inserts, deletes and repairs, whether or not those were completed.
   */
  lemma {:induction false} OthersFollowSharing(s: Stores, run: seq<Step>, id: ObjectId)
    requires ValidStores(s) && AllowedRun(s, run) && id in s.issued && id in After(s, run).docs
    ensures id in s.docs && After(s, run).docs[id].userId == s.docs[id].userId
    ensures Others(After(s, run), id) == LastShared(run, id, s.docs[id].userId, Others(s, id))
    decreases |run|
  {
    hide Allowed, Next, Others, ValidStores;
    if run != [] {
      AllowedPrefix(s, run);
      var init := run[..|run| - 1];
      RunKeepsValid(s, init);
      StepKeepsOthers(After(s, init), run[|run| - 1], id);
      OthersFollowSharing(s, init, id);
    }
  }

  /** One completed repair after any run brings the stores together and keeps those grants. */
  lemma RepairEndsEveryRun(s: Stores, run: seq<Step>)
    requires ValidStores(s) && AllowedRun(s, run)
    ensures var now := After(s, run);
            var repaired := Next(now, Repair(Repaired(now.docs, now.perms)));
            && InSync(repaired.docs, repaired.perms) && Drift(repaired) == {} && repaired.docs == now.docs
            && Repaired(repaired.docs, repaired.perms) == repaired.perms
            && forall id :: id in now.docs && id in s.issued ==>
                 id in s.docs && Others(repaired, id) == LastShared(run, id, s.docs[id].userId, Others(s, id))
  {
    hide Allowed, ValidStores, Others;
    var now := After(s, run);
    RepairedExactlyWhenInSync(now.docs, now.perms);
    RepairedExactlyWhenInSync(now.docs, Repaired(now.docs, now.perms));
    forall id | id in now.docs && id in s.issued
      ensures id in s.docs
      ensures Others(now.(perms := Repaired(now.docs, now.perms)), id) == LastShared(run, id, s.docs[id].userId, Others(s, id))
    {
      OthersFollowSharing(s, run, id);
      RepairKeepsOthers(now, id);
    }
  }

  /**
   The documents are listed before the resources.  When another instance works in between, the repair
   brings the stores together exactly when no document came or went: a document inserted between the
   two listings loses the resource its insert had just written.
   */
  lemma RepairBesideAnotherInstance(s: Stores, between: seq<Step>)
    requires ValidStores(s) && AllowedRun(s, between)
    ensures var now := After(s, between);
            var perms := Repaired(s.docs, now.perms);
            && (InSync(now.docs, perms) <==> now.docs.Keys == s.docs.Keys)
            && (forall id :: id in now.docs && id !in s.docs ==> id !in perms)
  {
    hide Allowed, ValidStores, Others;
    var now := After(s, between);
    var perms := Repaired(s.docs, now.perms);
    forall id | id in now.docs && id in s.docs
      ensures OwnerHasFullPermissions(perms[id], now.docs[id].userId)
    {
      IssuedBefore(s, id);
      OthersFollowSharing(s, between, id);
    }
    assert perms.Keys == s.docs.Keys;
  }

  lemma IssuedBefore(s: Stores, id: ObjectId)
    requires ValidStores(s) && id in s.docs
    ensures id in s.issued
  {
    hide ParseObjectId;
  }

  /** A batch is a run of single deletes, so all of the above holds for batches too. */
  lemma {:induction false} BatchIsARun(s: Stores, ids: seq<string>, faults: nat -> Fault)
    ensures exists k: nat :: k <= |ids| && DeleteBatch(s, ids, faults).0 == After(s, Deletes(ids[..k], faults))
    decreases |ids|
  {
    hide DeleteOne;
    if ids == [] {
      assert Deletes(ids[..0], faults) == [];
    } else {
      var n := |ids| - 1;
      BatchIsARun(s, ids[..n], faults);
      BatchSoFar(s, ids[..n], faults);
      if DeleteBatch(s, ids[..n], faults).1.Some? {
        var k: nat :| k <= n && DeleteBatch(s, ids[..n], faults).0 == After(s, Deletes(ids[..n][..k], faults));
        assert ids[..n][..k] == ids[..k];
      } else {
        var run := Deletes(ids, faults);
        assert run[..n] == Deletes(ids[..n], faults) && ids[..|ids|] == ids;
      }
    }
  }

  function Deletes(ids: seq<string>, faults: nat -> Fault): seq<Step> {
    seq(|ids|, i requires 0 <= i < |ids| => Delete(ids[i], faults(i)))
  }

  lemma {:induction false} BatchSoFar(s: Stores, ids: seq<string>, faults: nat -> Fault)
    ensures DeleteBatch(s, ids, faults).1 == None ==> DeleteBatch(s, ids, faults).0 == After(s, Deletes(ids, faults))
    decreases |ids|
  {
    hide DeleteOne;
    if ids != [] {
      var n := |ids| - 1;
      BatchSoFar(s, ids[..n], faults);
      assert Deletes(ids, faults)[..n] == Deletes(ids[..n], faults);
    }
  }

  // ---------------------------------------------------------------- the runs of clients among these

  /** An event of the collection as a step on both stores; the call to the permission service may fail. */
  function StepOf(e: Event, f: Fault): Step {
    match e
    case Inserted(id, body) => Insert(id, body, f)
    case Deleted(id) => Delete(id, f)
    case Applied(_, req) => Write(req)
  }

  function StepsOf(history: seq<Event>, faults: nat -> Fault): seq<Step> {
    seq(|history|, i requires 0 <= i < |history| => StepOf(history[i], faults(i)))
  }

  /** The database makes up lower-case ids. */
  predicate MakesCanonicalIds(history: seq<Event>) {
    forall i :: 0 <= i < |history| && history[i].Inserted? ==> ParseObjectId(history[i].id) == Some(history[i].id)
  }

  lemma StepDoesTheEvent(s: Stores, e: Event, f: Fault)
    requires ValidStores(s) && TakesEffect(Store(s.docs, s.issued), e) && f.delivery != NotSent
    requires e.Inserted? ==> ParseObjectId(e.id) == Some(e.id)
    ensures Allowed(s, StepOf(e, f))
    ensures var t := Next(s, StepOf(e, f)); Store(t.docs, t.issued) == Effect(Store(s.docs, s.issued), e)
  {
    hide ParseObjectId, Sequential;
  }

  /**
   Every history of the collection is a run on both stores with the same documents, however its
   calls to the permission service fare.
   */
  lemma {:induction false} HistoryIsARun(s: Stores, history: seq<Event>, faults: nat -> Fault)
    requires ValidStores(s) && P.AllTookEffect(Store(s.docs, s.issued), history) && MakesCanonicalIds(history)
    requires forall i: nat :: faults(i).delivery != NotSent
    ensures AllowedRun(s, StepsOf(history, faults))
    ensures var t := After(s, StepsOf(history, faults)); Store(t.docs, t.issued) == Replay(Store(s.docs, s.issued), history)
    decreases |history|
  {
    hide Allowed, Next, StepOf, Effect, TakesEffect, ValidStores, ParseObjectId;
    var s0, steps := Store(s.docs, s.issued), StepsOf(history, faults);
    if history != [] {
      var n := |history| - 1;
      var init := history[..n];
      assert steps[..n] == StepsOf(init, faults);
      InitTookEffect(s0, history);
      HistoryIsARun(s, init, faults);
      RunKeepsValid(s, steps[..n]);
      StepDoesTheEvent(After(s, steps[..n]), history[n], faults(n));
      forall i | 0 <= i < |steps| ensures Allowed(After(s, steps[..i]), steps[i]) {
        if i < n {
          assert steps[..n][..i] == steps[..i] && steps[..n][i] == steps[i];
        }
      }
    }
  }

  lemma InitTookEffect(s0: Store, history: seq<Event>)
    requires P.AllTookEffect(s0, history) && history != []
    ensures P.AllTookEffect(s0, history[..|history| - 1])
    ensures TakesEffect(Replay(s0, history[..|history| - 1]), history[|history| - 1])
  {
    hide TakesEffect, Replay;
    var n := |history| - 1;
    forall k: nat | k < n ensures TakesEffect(At(s0, history[..n], k), history[..n][k]) {
      assert history[..n][..k] == history[..k];
      assert TakesEffect(At(s0, history, k), history[k]);
    }
    assert TakesEffect(At(s0, history, n), history[n]);
  }

  /** So the claims about runs hold for whatever any number of clients do to the documents. */
  lemma ClientRunIsARun(s: Stores, actions: seq<P.Action>, faults: nat -> Fault)
    requires ValidStores(s) && forall i: nat :: faults(i).delivery != NotSent
    requires MakesCanonicalIds(P.Run(P.Start(Store(s.docs, s.issued)), actions).history)
    ensures var end := P.Run(P.Start(Store(s.docs, s.issued)), actions);
            var run := StepsOf(end.history, faults);
            AllowedRun(s, run) && After(s, run).docs == end.store.docs && After(s, run).issued == end.store.issued
  {
    hide AllowedRun, After, StepsOf, P.Run, P.Step, MakesCanonicalIds, P.AllTookEffect, P.ClientOk;
    var s0 := Store(s.docs, s.issued);
    IdsAreIssued(s);
    P.RunKeepsInv(s0, actions);
    HistoryIsARun(s, P.Run(P.Start(s0), actions).history, faults);
  }

  lemma IdsAreIssued(s: Stores)
    requires ValidStores(s)
    ensures ValidStore(Store(s.docs, s.issued))
  {
    hide ParseObjectId;
  }

  // ---------------------------------------------------------------- inputs that show the limits

  const LOWER_ID := "aaaaaaaaaaaaaaaaaaaaaaaa"
  const UPPER_ID := "AAAAAAAAAAAAAAAAAAAAAAAA"

  /** Both spellings name the document of the first. */
  lemma SpellingsOfOneId()
    ensures ParseObjectId(LOWER_ID) == Some(LOWER_ID) && ParseObjectId(UPPER_ID) == Some(LOWER_ID) && UPPER_ID != LOWER_ID
  {
    assert forall i :: 0 <= i < 24 ==> LOWER_ID[i] == 'a' && UPPER_ID[i] == 'A';
    assert IsHexId(LOWER_ID) && IsHexId(UPPER_ID);
    assert seq(24, i requires 0 <= i < 24 && IsHexId(LOWER_ID) => LowerHex(LOWER_ID[i])) == LOWER_ID;
    assert seq(24, i requires 0 <= i < 24 && IsHexId(UPPER_ID) => LowerHex(UPPER_ID[i])) == LOWER_ID;
  }

  function NoFaults(i: nat): Fault { CLEAN }

  /** One document with its resource. */
  function OneOperator(doc: Operator): Stores {
    Stores(map[LOWER_ID := doc], {LOWER_ID}, map[LOWER_ID := WithDefault(NOBODY, doc.userId)])
  }

  /** Deleted under its upper-case id the document goes and the resource stays. */
  lemma UpperCaseDeleteLeavesResource(doc: Operator)
    ensures ValidStores(OneOperator(doc))
    ensures DeleteOne(OneOperator(doc), UPPER_ID, CLEAN) == (OneOperator(doc).(docs := map[]), None)
  {
    SpellingsOfOneId();
    hide ParseObjectId;
    var s := OneOperator(doc);
    assert s.docs - {LOWER_ID} == map[] && s.perms - {UPPER_ID} == s.perms;
  }

  /** A batch with both spellings deletes the document and then reports that it does not exist. */
  lemma BatchOfTwoSpellingsStops(doc: Operator)
    ensures DeleteBatch(OneOperator(doc), [LOWER_ID, UPPER_ID], NoFaults) == (Stores(map[], {LOWER_ID}, map[]), Some(NotFound))
  {
    SpellingsOfOneId();
    hide ParseObjectId;
    var s := OneOperator(doc);
    var ids := [LOWER_ID, UPPER_ID];
    assert s.docs - {LOWER_ID} == map[] && s.perms - {LOWER_ID} == map[];
    assert ids[..1] == [LOWER_ID] && ids[..1][..0] == [];
    assert DeleteBatch(s, ids[..1], NoFaults) == (Stores(map[], {LOWER_ID}, map[]), None);
  }

  /** An answer that mentions nobody refuses nobody, and the batch deletes. */
  lemma EmptyAnswerRefusesNobody(doc: Operator)
    ensures ManyError(Some(map[])) == None
    ensures DeleteBatch(OneOperator(doc), [LOWER_ID], NoFaults) == (Stores(map[], {LOWER_ID}, map[]), None)
  {
    SpellingsOfOneId();
    hide ParseObjectId;
    var s := OneOperator(doc);
    assert s.docs - {LOWER_ID} == map[] && s.perms - {LOWER_ID} == map[];
    assert [LOWER_ID][..0] == [];
  }

  /** A repair that listed the owner without rights takes back what somebody granted meanwhile. */
  lemma GrantDuringRepairIsLost(doc: Operator, grant: Grant)
    requires doc.userId != "friend"
    ensures var docs := map[LOWER_ID := doc]; var known := map[LOWER_ID := NOBODY];
            var now := map[LOWER_ID := Resource(map["friend" := grant], map[], map[])];
            RepairedOver(docs, known, now) == map[LOWER_ID := WithDefault(NOBODY, doc.userId)]
            && "friend" !in RepairedOver(docs, known, now)[LOWER_ID].users
  {
    var docs, known := map[LOWER_ID := doc], map[LOWER_ID := NOBODY];
    var now := map[LOWER_ID := Resource(map["friend" := grant], map[], map[])];
    forall id ensures Entry(RepairedOver(docs, known, now), id) == Entry(map[LOWER_ID := WithDefault(NOBODY, doc.userId)], id) {
      RepairedOverEntry(docs, known, now, id);
    }
    SameEntriesSameMap(RepairedOver(docs, known, now), map[LOWER_ID := WithDefault(NOBODY, doc.userId)]);
  }

  /** An insert between the two listings of a repair loses its resource to the repair. */
  lemma InsertBetweenListingsLosesItsResource(body: Operator)
    ensures var s, between := Stores(map[], {}, map[]), [Insert(LOWER_ID, body, CLEAN)];
            var now := After(s, between);
            && ValidStores(s) && AllowedRun(s, between) && InSync(now.docs, now.perms) && LOWER_ID in now.docs
            && Repaired(s.docs, now.perms) == map[] && !InSync(now.docs, Repaired(s.docs, now.perms))
  {
    SpellingsOfOneId();
    hide ParseObjectId;
    var s, between := Stores(map[], {}, map[]), [Insert(LOWER_ID, body, CLEAN)];
    assert between[..0] == [];
    assert After(s, []) == s;
    var now := After(s, between);
    assert LOWER_ID in now.docs && LOWER_ID !in Repaired(s.docs, now.perms);
    assert Repaired(s.docs, now.perms).Keys != now.docs.Keys;
  }
}
