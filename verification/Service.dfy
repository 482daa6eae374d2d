/** The delete guard of `pkg/service/service.go`: rights first, then usage, then the repository. */
module Service {
  import opened Text
  import opened Operators
  import V = Versions
  import D = Repo
  import opened Reconciliation

  predicate IsUsed(u: UsedOperator) { u.flows > 0 || u.pipelines > 0 }

  /** The two services' answers for one operator; `None` when a service could not be asked. */
  function UsageOf(id: string, flows: Option<int>, pipelines: Option<int>): Result<UsedOperator> {
    if flows == None then Err(FlowRepoUnavailable)
    else if pipelines == None then Err(PipelineRegistryUnavailable)
    else Ok(UsedOperator(id, flows.value, pipelines.value))
  }

  /** What both services answer for each position of a batch. */
  datatype Answers = Answers(flows: nat -> Option<int>, pipelines: nat -> Option<int>) {
    predicate Given(i: nat) { flows(i).Some? && pipelines(i).Some? }

    predicate Positive(i: nat) { Given(i) && (flows(i).value > 0 || pipelines(i).value > 0) }

    predicate Zero(i: nat) { Given(i) && flows(i).value <= 0 && pipelines(i).value <= 0 }
  }

  /** The batch asked in order, up to the first answer that is missing. */
  function Asked(ids: seq<string>, a: Answers): Result<seq<UsedOperator>>
    decreases |ids|
  {
    if ids == [] then Ok([])
    else
      var n := |ids| - 1;
      match Asked(ids[..n], a)
      case Err(e) => Err(e)
      case Ok(used) =>
        match UsageOf(ids[n], a.flows(n), a.pipelines(n))
        case Err(e) => Err(e)
        case Ok(u) => Ok(if IsUsed(u) then used + [u] else used)
  }

  function Guard(ids: seq<string>, a: Answers, force: bool): Result<seq<UsedOperator>> {
    match Asked(ids, a)
    case Err(e) => Err(e)
    case Ok(used) => if used != [] && !force then Err(InUse(used, "")) else Ok(used)
  }

  /** `used` are the ids at `picks`, in that order, with the counts they were answered. */
  ghost predicate Picked(ids: seq<string>, a: Answers, used: seq<UsedOperator>, picks: seq<nat>) {
    && |picks| == |used|
    && (forall j, k :: 0 <= j < k < |picks| ==> picks[j] < picks[k])
    && (forall i: nat :: i in picks <==> i < |ids| && a.Positive(i))
    && (forall j :: 0 <= j < |picks| ==> Reports(ids, a, picks[j], used[j]))
  }

  predicate Reports(ids: seq<string>, a: Answers, i: nat, u: UsedOperator) {
    i < |ids| && a.Given(i) && u == UsedOperator(ids[i], a.flows(i).value, a.pipelines(i).value)
  }

  lemma PicksOneMore(ids: seq<string>, a: Answers, n: nat, used: seq<UsedOperator>, picks: seq<nat>)
    requires |ids| == n + 1 && a.Given(n) && Picked(ids[..n], a, used, picks)
    ensures var u := UsedOperator(ids[n], a.flows(n).value, a.pipelines(n).value);
            if a.Positive(n) then Picked(ids, a, used + [u], picks + [n]) else Picked(ids, a, used, picks)
  {
    forall j | 0 <= j < |picks| ensures picks[j] < n && Reports(ids, a, picks[j], used[j]) {
      assert Reports(ids[..n], a, picks[j], used[j]);
    }
    forall i: nat ensures i in picks + [n] <==> i in picks || i == n {}
  }

  /** When every answer is there, exactly the used ids are reported, in request order. */
  lemma {:induction false} ReportsUsedInOrder(ids: seq<string>, a: Answers)
    requires forall i :: 0 <= i < |ids| ==> a.Given(i)
    ensures Asked(ids, a).Ok? && exists picks :: Picked(ids, a, Asked(ids, a).value, picks)
    decreases |ids|
  {
    if ids == [] {
      assert Picked(ids, a, [], []);
    } else {
      var n := |ids| - 1;
      ReportsUsedInOrder(ids[..n], a);
      var used := Asked(ids[..n], a).value;
      var picks: seq<nat> :| Picked(ids[..n], a, used, picks);
      PicksOneMore(ids, a, n, used, picks);
      hide Picked;
      assert Picked(ids, a, Asked(ids, a).value, picks) || Picked(ids, a, Asked(ids, a).value, picks + [n]);
    }
  }

  /** In terms of the answers alone: reported is what has a positive count, with both its counts. */
  lemma ReportsExactlyTheUsed(ids: seq<string>, a: Answers, u: UsedOperator)
    requires forall i :: 0 <= i < |ids| ==> a.flows(i).Some? && a.pipelines(i).Some?
    ensures Asked(ids, a).Ok?
    ensures u in Asked(ids, a).value <==>
              exists i: nat ::
                && i < |ids| && u == UsedOperator(ids[i], a.flows(i).value, a.pipelines(i).value)
                && (a.flows(i).value > 0 || a.pipelines(i).value > 0)
  {
    hide Asked;
    ReportsUsedInOrder(ids, a);
    var used := Asked(ids, a).value;
    var picks: seq<nat> :| Picked(ids, a, used, picks);
    if u in used {
      var j :| 0 <= j < |used| && used[j] == u;
      assert Reports(ids, a, picks[j], u) && picks[j] in picks;
    }
    if i: nat :| i < |ids| && u == UsedOperator(ids[i], a.flows(i).value, a.pipelines(i).value)
                 && (a.flows(i).value > 0 || a.pipelines(i).value > 0) {
      assert a.Positive(i);
      var j :| 0 <= j < |picks| && picks[j] == i;
      assert Reports(ids, a, i, used[j]);
    }
  }

  /** Otherwise the first missing answer decides the error. */
  lemma {:induction false} FirstMissingAnswerDecides(ids: seq<string>, a: Answers, i: nat)
    requires i < |ids| && !a.Given(i) && forall j :: 0 <= j < i ==> a.Given(j)
    ensures Asked(ids, a) == Err(if a.flows(i) == None then FlowRepoUnavailable else PipelineRegistryUnavailable)
    decreases |ids|
  {
    var n := |ids| - 1;
    if i == n {
      ReportsUsedInOrder(ids[..n], a);
    } else {
      FirstMissingAnswerDecides(ids[..n], a, i);
    }
  }

  lemma FirstMissing(ids: seq<string>, a: Answers) returns (i: nat)
    requires exists j: nat :: j < |ids| && !a.Given(j)
    ensures i < |ids| && !a.Given(i) && forall j :: 0 <= j < i ==> a.Given(j)
  {
    i := 0;
    while a.Given(i)
      invariant i < |ids| && forall j :: 0 <= j < i ==> a.Given(j)
      invariant exists j: nat :: i <= j < |ids| && !a.Given(j)
      decreases |ids| - i
    {
      i := i + 1;
    }
  }

  /** The guard lets a batch pass exactly when every answer came and nothing is used or force is set. */
  lemma GuardPassesExactlyWhen(ids: seq<string>, a: Answers, force: bool)
    ensures Guard(ids, a, force).Ok? <==>
              && (forall i :: 0 <= i < |ids| ==> a.flows(i).Some? && a.pipelines(i).Some?)
              && (force || forall i :: 0 <= i < |ids| ==> a.flows(i).value <= 0 && a.pipelines(i).value <= 0)
    ensures Guard(ids, a, force).Err? ==> GuardError(ids, a, force, Guard(ids, a, force).error)
  {
    hide Guard, GuardError;
    GuardAnswers(ids, a, force);
    if forall i :: 0 <= i < |ids| ==> a.flows(i).Some? && a.pipelines(i).Some? {
      forall i | 0 <= i < |ids| ensures a.Given(i) { assert a.flows(i).Some?; }
      if forall i :: 0 <= i < |ids| ==> a.flows(i).value <= 0 && a.pipelines(i).value <= 0 {
        forall i | 0 <= i < |ids| ensures a.Zero(i) { assert a.flows(i).value <= 0; }
      }
    }
    if forall i :: 0 <= i < |ids| ==> a.Given(i) {
      forall i | 0 <= i < |ids| ensures a.flows(i).Some? && a.pipelines(i).Some? { assert a.Given(i); }
      if forall i :: 0 <= i < |ids| ==> a.Zero(i) {
        forall i | 0 <= i < |ids| ensures a.flows(i).value <= 0 && a.pipelines(i).value <= 0 { assert a.Zero(i); }
      }
    }
  }

  /** The used operators in order, or the failure of a service that did not answer. */
  ghost predicate GuardError(ids: seq<string>, a: Answers, force: bool, e: Error) {
    match e
    case InUse(used, version) =>
      !force && used != [] && version == "" && exists picks :: Picked(ids, a, used, picks)
    case FlowRepoUnavailable => exists i: nat :: i < |ids| && a.flows(i) == None
    case PipelineRegistryUnavailable => exists i: nat :: i < |ids| && a.pipelines(i) == None
    case _ => false
  }

  lemma GuardAnswers(ids: seq<string>, a: Answers, force: bool)
    ensures Guard(ids, a, force).Ok? <==>
              (forall i :: 0 <= i < |ids| ==> a.Given(i)) && (force || forall i :: 0 <= i < |ids| ==> a.Zero(i))
    ensures Guard(ids, a, force).Err? ==> GuardError(ids, a, force, Guard(ids, a, force).error)
  {
    if forall i :: 0 <= i < |ids| ==> a.Given(i) {
      ReportsUsedInOrder(ids, a);
      var used := Asked(ids, a).value;
      var picks: seq<nat> :| Picked(ids, a, used, picks);
      if used != [] {
        assert picks[0] in picks;
        assert a.Positive(picks[0]) && !a.Zero(picks[0]);
      } else {
        forall i: nat | i < |ids| ensures a.Zero(i) {
          assert i !in picks;
        }
      }
    } else {
      var i := FirstMissing(ids, a);
      FirstMissingAnswerDecides(ids, a, i);
    }
  }

  /** A single operator: the two answers for it decide. */
  lemma OneAnswer(id: string, a: Answers, force: bool)
    ensures Guard([id], a, force) ==
            if a.flows(0) == None then Err(FlowRepoUnavailable)
            else if a.pipelines(0) == None then Err(PipelineRegistryUnavailable)
            else
              var used := a.flows(0).value > 0 || a.pipelines(0).value > 0;
              var u := UsedOperator(id, a.flows(0).value, a.pipelines(0).value);
              if used && !force then Err(InUse([u], "")) else Ok(if used then [u] else [])
  {
    hide UsageOf;
    assert [id][..0] == [] && [id][0] == id;
    assert Asked([], a) == Ok([]);
    assert Asked([id], a) == match UsageOf(id, a.flows(0), a.pipelines(0))
                             case Err(e) => Err(e)
                             case Ok(u) => Ok(if IsUsed(u) then [u] else []) by {
      if UsageOf(id, a.flows(0), a.pipelines(0)).Ok? {
        assert [] + [UsageOf(id, a.flows(0), a.pipelines(0)).value] == [UsageOf(id, a.flows(0), a.pipelines(0)).value];
      }
    }
    UsageSays(id, a.flows(0), a.pipelines(0));
  }

  lemma UsageSays(id: string, flows: Option<int>, pipelines: Option<int>)
    ensures UsageOf(id, flows, pipelines) ==
            if flows == None then Err(FlowRepoUnavailable)
            else if pipelines == None then Err(PipelineRegistryUnavailable)
            else Ok(UsedOperator(id, flows.value, pipelines.value))
  {
  }

  /** The answer of the permission service mentions every id and grants it. */
  predicate GrantsAll(ids: seq<string>, answer: map<string, bool>) {
    forall id :: id in ids ==> id in answer && answer[id]
  }

  lemma AnswersGrant(ids: seq<string>, many: Option<map<string, bool>>)
    ensures ManyError(many) == None ==> many.Some? && (GrantsAll(ids, many.value) <==> IdsIn(ids) <= many.value.Keys)
  {
    if ManyError(many) == None {
      ManyGrantsExactlyWhen(ids, many);
    }
  }

  class Service {
    const repo: Repository

    constructor (repo: Repository)
      ensures this.repo == repo
    {
      this.repo := repo;
    }

    /** The flow repository is asked first; the pipeline registry only after its answer. */
    method Usage(id: string, flows: Option<int>, pipelines: Option<int>) returns (r: Result<UsedOperator>)
      ensures flows == None ==> r == Err(FlowRepoUnavailable)
      ensures flows.Some? && pipelines == None ==> r == Err(PipelineRegistryUnavailable)
      ensures flows.Some? && pipelines.Some? ==> r == Ok(UsedOperator(id, flows.value, pipelines.value))
    {
      if flows == None {
        return Err(FlowRepoUnavailable);
      }
      if pipelines == None {
        return Err(PipelineRegistryUnavailable);
      }
      return Ok(UsedOperator(id, flows.value, pipelines.value));
    }

    method UsedBy(ids: seq<string>, a: Answers, force: bool) returns (r: Result<seq<UsedOperator>>)
      ensures r == Guard(ids, a, force)
    {
      var used: seq<UsedOperator> := [];
      var i := 0;
      while i < |ids|
        invariant 0 <= i <= |ids|
        invariant Asked(ids[..i], a) == Ok(used)
      {
        assert ids[..i + 1][..i] == ids[..i];
        var usage := Usage(ids[i], a.flows(i), a.pipelines(i));
        i := i + 1;
        if usage.Err? {
          MissingAnswerEnds(ids, a, i);
          return Err(usage.error);
        }
        if IsUsed(usage.value) {
          used := used + [usage.value];
        }
      }
      assert ids[..i] == ids;
      if |used| > 0 && !force {
        return Err(InUse(used, ""));
      }
      return Ok(used);
    }

    /**
     Rights, usage and again rights are settled before either store is touched; what is then deleted is
     what the repository's batch deletes.
     */
    method DeleteOperators(ids: seq<string>, one: D.Rights, many: Option<map<string, bool>>, a: Answers, force: bool,
                           again: Option<map<string, bool>>, faults: nat -> Fault)
      returns (err: Option<Error>)
      modifies repo
      ensures AdministrateError(ids, one, many).Some? ==>
                err == AdministrateError(ids, one, many) && repo.State() == old(repo.State())
      ensures AdministrateError(ids, one, many) == None && Guard(ids, a, force).Err? ==>
                err == Some(Guard(ids, a, force).error) && repo.State() == old(repo.State())
      ensures AdministrateError(ids, one, many) == None && Guard(ids, a, force).Ok? && ManyError(again).Some? ==>
                err == ManyError(again) && repo.State() == old(repo.State())
      ensures && (if |ids| == 1 then one == D.Granted else many.Some? && forall id :: id in many.value ==> many.value[id])
              && (forall i :: 0 <= i < |ids| ==> a.flows(i).Some? && a.pipelines(i).Some?)
              && (force || forall i :: 0 <= i < |ids| ==> a.flows(i).value <= 0 && a.pipelines(i).value <= 0)
              && again.Some? && (forall id :: id in again.value ==> again.value[id]) ==>
                (repo.State(), err) == DeleteBatch(old(repo.State()), ids, faults)
      ensures repo.State() != old(repo.State()) ==>
                && (if |ids| == 1 then one == D.Granted else many.Some? && forall id :: id in many.value ==> many.value[id])
                && (forall i :: 0 <= i < |ids| ==> a.flows(i).Some? && a.pipelines(i).Some?)
                && (force || forall i :: 0 <= i < |ids| ==> a.flows(i).value <= 0 && a.pipelines(i).value <= 0)
                && again.Some? && (forall id :: id in again.value ==> again.value[id])
                && (GrantsAll(ids, again.value) <==> IdsIn(ids) <= again.value.Keys)
                && (exists k: nat, r: nat :: PrefixGone(old(repo.State()), ids, k, r, repo.State()))
    {
      hide Guard, PrefixGone, DeleteBatch, GrantsAll;
      AnswersGrant(ids, again);
      err := repo.CheckAdministrate(ids, one, many);
      if err.Some? {
        return;
      }
      var used := UsedBy(ids, a, force);
      GuardPassesExactlyWhen(ids, a, force);
      if used.Err? {
        return Some(used.error);
      }
      BatchDeletesPrefix(repo.State(), ids, faults);
      err := repo.DeleteOperators(ids, again, faults);
    }

    method DeleteOperator(id: string, rights: D.Rights, a: Answers, force: bool, again: D.Rights, fault: Fault)
      returns (err: Option<Error>)
      modifies repo
      ensures rights != D.Granted ==>
                err == Some(if rights == D.Denied then MissingRights else ServerError) && repo.State() == old(repo.State())
      ensures rights == D.Granted && Guard([id], a, force).Err? ==>
                err == Some(Guard([id], a, force).error) && repo.State() == old(repo.State())
      ensures rights == D.Granted && Guard([id], a, force).Ok? && again == D.Granted ==>
                (repo.State(), err) == DeleteOne(old(repo.State()), id, fault)
      ensures rights == D.Granted && Guard([id], a, force).Ok? && again != D.Granted ==>
                err == Some(if again == D.Denied then MissingRights else ServerError) && repo.State() == old(repo.State())
      ensures rights == D.Granted && a.flows(0) == None ==> err == Some(FlowRepoUnavailable)
      ensures rights == D.Granted && a.flows(0).Some? && a.pipelines(0) == None ==> err == Some(PipelineRegistryUnavailable)
      ensures rights == D.Granted && a.Given(0) && !force && (a.flows(0).value > 0 || a.pipelines(0).value > 0) ==>
                err == Some(InUse([UsedOperator(id, a.flows(0).value, a.pipelines(0).value)], ""))
      ensures rights == D.Granted && again == D.Granted && a.Given(0)
              && (force || (a.flows(0).value <= 0 && a.pipelines(0).value <= 0)) ==>
                (repo.State(), err) == DeleteOne(old(repo.State()), id, fault)
      ensures repo.State() != old(repo.State()) ==>
                rights == D.Granted && again == D.Granted && a.Given(0) && (force || (a.flows(0).value <= 0 && a.pipelines(0).value <= 0))
    {
      hide Guard, DeleteOne;
      OneAnswer(id, a, force);
      err := repo.CheckAdministrate([id], rights, None);
      if err.Some? {
        return;
      }
      var used := UsedBy([id], a, force);
      GuardPassesExactlyWhen([id], a, force);
      if used.Err? {
        return Some(used.error);
      }
      err := repo.DeleteOperator(id, again, fault);
    }
  }

  lemma {:induction false} MissingAnswerEnds(ids: seq<string>, a: Answers, i: nat)
    requires i <= |ids| && Asked(ids[..i], a).Err?
    ensures Asked(ids, a) == Asked(ids[..i], a)
    decreases |ids|
  {
    if i == |ids| {
      assert ids[..i] == ids;
    } else {
      var n := |ids| - 1;
      assert ids[..n][..i] == ids[..i];
      MissingAnswerEnds(ids[..n], a, i);
    }
  }

  // ---------------------------------------------------------------- one version

  /** What the check handed to the repository says of the version about to go. */
  function VersionGuard(id: string, flows: string -> Option<int>, pipelines: string -> Option<int>, force: bool)
    : OperatorVersion -> Option<Error>
  {
    (v: OperatorVersion) =>
      match UsageOf(id, flows(v.version), pipelines(v.image))
      case Err(e) => Some(e)
      case Ok(u) => if IsUsed(u) && !force then Some(InUse([u], v.version)) else None
  }

  /**
   The check passes a version exactly when both services answered for its label and its image and it is
   unused or force is set; the flow repository's failure comes first, then the registry's, then the use.
   */
  lemma VersionGuardSays(id: string, flows: string -> Option<int>, pipelines: string -> Option<int>, force: bool, v: OperatorVersion)
    ensures VersionGuard(id, flows, pipelines, force)(v) ==
            match (flows(v.version), pipelines(v.image))
            case (None, _) => Some(FlowRepoUnavailable)
            case (Some(_), None) => Some(PipelineRegistryUnavailable)
            case (Some(f), Some(p)) =>
              if !force && (f > 0 || p > 0) then Some(InUse([UsedOperator(id, f, p)], v.version)) else None
  {
  }

  /**
   Deleting one version.  The label is checked before anything else, then rights, id and document;
   then the usage of the very version that is about to go.  A refusal for use writes nothing and
   names the operator with its counts and the label.  Otherwise the answer means what it means
   for the repository, and a success removed the version that was asked about, unchanged since.
   */
  method DeleteOperatorVersion(repo: D.MongoRepo, client: nat, id: string, tag: string, rights: D.Rights,
                               flows: string -> Option<int>, pipelines: string -> Option<int>, force: bool,
                               between: seq<D.Event>, delivery: D.Delivery, racing: seq<D.Event>, counted: bool)
    returns (err: Option<Error>)
    requires D.ValidStore(repo.Snapshot())
    modifies repo
    ensures !V.ValidLabel(tag) ==> err == Some(InvalidInput) && repo.Snapshot() == old(repo.Snapshot())
    ensures V.ValidLabel(tag) && rights == D.Denied ==> err == Some(MissingRights) && repo.Snapshot() == old(repo.Snapshot())
    ensures V.ValidLabel(tag) && rights == D.Unavailable ==> err == Some(ServerError) && repo.Snapshot() == old(repo.Snapshot())
    ensures V.ValidLabel(tag) && rights == D.Granted && D.ParseObjectId(id) == None ==>
              err == Some(InvalidInput) && repo.Snapshot() == old(repo.Snapshot())
    ensures V.ValidLabel(tag) && rights == D.Granted && D.ParseObjectId(id).Some? && D.ParseObjectId(id).value !in old(repo.docs) ==>
              err == Some(NotFound) && repo.Snapshot() == old(repo.Snapshot())
    ensures V.ValidLabel(tag) && rights == D.Granted && D.ParseObjectId(id).Some? && D.ParseObjectId(id).value in old(repo.docs) ==>
              VersionOutcome(repo, old(repo.Snapshot()), repo.Snapshot(), client, id, D.ParseObjectId(id).value, tag,
                             flows, pipelines, force, between, racing, err)
  {
    hide V.ParseLabel, V.RemoveVersion, D.ParseObjectId;
    var parsed := V.ParseVersionLabel(tag);
    if parsed.Err? {
      V.LabelErrors(tag);
      return Some(parsed.error);
    }
    hide VersionGuard;
    var check := VersionGuard(id, flows, pipelines, force);
    err := repo.DeleteOperatorVersion(client, id, tag, rights, check, between, delivery, racing, counted);
    if rights == D.Granted && D.ParseObjectId(id).Some? && D.ParseObjectId(id).value in old(repo.docs) {
      var answer := V.RemoveVersion(old(repo.docs)[D.ParseObjectId(id).value].versions, tag);
      if answer.Ok? {
        V.RemovedHasLabel(old(repo.docs)[D.ParseObjectId(id).value].versions, tag);
        VersionGuardSays(id, flows, pipelines, force, answer.value.removed);
      }
    }
  }

  /** What the answer means once the document was read. */
  ghost predicate VersionOutcome(repo: D.MongoRepo, atRead: D.Store, after: D.Store, client: nat, id: string, objId: D.ObjectId,
                                 tag: string, flows: string -> Option<int>, pipelines: string -> Option<int>, force: bool,
                                 between: seq<D.Event>, racing: seq<D.Event>, err: Option<Error>)
    requires objId in atRead.docs
  {
    var answer, now := V.RemoveVersion(atRead.docs[objId].versions, tag), D.Replay(atRead, between);
    if answer.Ok? && flows(tag) == None then
      err == Some(FlowRepoUnavailable) && after == now
    else if answer.Ok? && pipelines(answer.value.removed.image) == None then
      err == Some(PipelineRegistryUnavailable) && after == now
    else if answer.Ok? && !force && (flows(tag).value > 0 || pipelines(answer.value.removed.image).value > 0) then
      && err == Some(InUse([UsedOperator(id, flows(tag).value, pipelines(answer.value.removed.image).value)], tag))
      && after == now
    else
      && repo.Linearized(atRead, after, client, D.RemoveV(objId, tag), between, racing, err)
      && (err == None ==> answer.Ok? && objId in now.docs && now.docs[objId] == atRead.docs[objId])
  }
}
