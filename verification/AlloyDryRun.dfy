/** `validateOnly` writes nothing and answers as the real call would; updates keep an instance's type. */
module AlloyDryRun {
  import opened AlloyNames
  import opened AlloyTypes
  import opened AlloySections
  import opened AlloyFrames
  import opened AlloySafety
  import opened AlloyProtocol

  function Dry(r: Request): Request { r.(validateOnly := true) }

  function Real(r: Request): Request { r.(validateOnly := false) }

  /** Program points a section reaches only when its checks have passed and it is not a dry run. */
  predicate Committed(pc: Pc) {
    match pc
    case InstanceInsert | InstanceStart | RollbackDrop | RollbackRow | InstanceWrite(_) => true
    case InstanceDrop | InstanceDelete => true
    case ClusterInsert | ClusterUser | ClusterWrite(_) | ClusterList | CascadeDrops(_) => true
    case CascadeInstances | CascadeUsers | CascadeCluster => true
    case UserInsert | UserWrite(_) | UserDelete => true
    case RecordOperation(_, _) => true
    case Finished(o) => o.Accepted?
    case _ => false
  }

  /** The one thing that can still go wrong after every check has passed. */
  predicate DropThrows(r: Request) {
    r.verb.DeleteInstance? && DropOf(r.env, EndpointKey(r.key, r.verb.instanceId)).Threw?
  }

  // ── After the checks ──

  lemma CommittedInstance(db: Db, r: Request, pc: Pc)
    requires OnInstance(r.verb) && Fits(r, pc) && Committed(pc) && PcOk(db, r, pc)
    requires !pc.Finished? && !pc.RecordOperation?
    ensures var next := InstanceStep(db, r, pc).1;
            if pc.InstanceDrop? && DropThrows(r) then next == Fail(Internal) else Committed(next)
  {
    hide InstanceName, ClusterName, EndpointKey, DropOf, NewInstance, ApplyInstanceUpdates, PlacementError;
    hide RequestedType, AnotherHasType, DropEndpoint, IsValidInstanceId;
  }

  /** In a cluster with no users at all the initial user's insert cannot collide. */
  lemma InitialUserFree(db: Db, r: Request)
    ensures UsersUnder(db, r.key) == {} ==> InitialUserTarget(r) !in db.users
  {
    hide ClusterName, ResolvedUserName, ClusterBody;
    var user := InitialUserTarget(r);
    OwnPrefixes(r.key, ResolvedUserName(ClusterBody(r)));
    assert user in db.users ==> user in UsersUnder(db, r.key);
  }

  lemma CommittedCluster(db: Db, r: Request, pc: Pc)
    requires !OnInstance(r.verb) && !OnUser(r.verb) && Fits(r, pc) && Committed(pc) && PcOk(db, r, pc)
    requires !pc.Finished? && !pc.RecordOperation?
    ensures Committed(ClusterStep(db, r, pc).1)
  {
    InitialUserFree(db, r);
    hide ClusterName, UserName, UserPrefix, InstancePrefix, ClusterBody, InitialUserTarget, UsersUnder;
    hide Sources, NewCluster, ApplyClusterUpdates, CascadeEndpoint, DeleteUnder, DropOf, DropEndpoint;
    hide InstancesUnder, ResolvedPassword, ResolvedUserName;
  }

  lemma CommittedUser(db: Db, r: Request, pc: Pc)
    requires OnUser(r.verb) && Fits(r, pc) && Committed(pc) && PcOk(db, r, pc)
    requires !pc.Finished? && !pc.RecordOperation?
    ensures Committed(UserStep(db, r, pc).1)
  {
    hide UserName, ClusterName, NewUser, ApplyUserUpdates, InstanceName;
  }

  lemma CommittedStep(db: Db, r: Request, pc: Pc)
    requires Fits(r, pc) && Committed(pc) && PcOk(db, r, pc) && !pc.Finished?
    ensures var next := Step(db, r, pc).1;
            if pc.InstanceDrop? && DropThrows(r) then next == Fail(Internal) else Committed(next)
  {
    hide InstanceStep, ClusterStep, UserStep, PcOk;
    if pc.RecordOperation? {
    } else if OnInstance(r.verb) {
      CommittedInstance(db, r, pc);
    } else if OnUser(r.verb) {
      CommittedUser(db, r, pc);
    } else {
      CommittedCluster(db, r, pc);
    }
  }

  /** Past its checks a section is accepted, unless it still has a drop to make and that drop throws. */
  lemma {:induction false} CommittedAccepted(db: Db, r: Request, pc: Pc)
    requires ValidKey(r.key) && Fits(r, pc) && OwnNames(r.key, pc)
    requires ClusterOk(db, r.key) && PcOk(db, r, pc) && Committed(pc)
    ensures Complete(db, r, pc).1.Accepted? || (pc.InstanceDrop? && DropThrows(r))
    ensures pc.InstanceDrop? && DropThrows(r) ==> Complete(db, r, pc).1 == Rejected(Internal)
    decreases Stage(pc), Remaining(pc)
  {
    hide ClusterOk, PcOk, Step, OwnNames, DropThrows, AgreeOff, AgreeOn;
    if !pc.Finished? {
      StepFits(db, r, pc);
      StepFrame(db, db, r, pc);
      StepOk(db, r, pc);
      CommittedStep(db, r, pc);
      var (after, next) := Step(db, r, pc);
      DropComesFirst(db, r, pc);
      if Committed(next) {
        CommittedAccepted(after, r, next);
      }
    }
  }

  lemma DropComesFirst(db: Db, r: Request, pc: Pc)
    requires Fits(r, pc) && Committed(pc) && !pc.Finished?
    ensures !Step(db, r, pc).1.InstanceDrop?
  {
    hide StartStep, ClusterName, UserName, InstanceName, ClusterBody, InitialUserTarget, Sources, NewCluster;
    hide ApplyClusterUpdates, CascadeEndpoint, DeleteUnder, DropOf, DropEndpoint, InstancesUnder;
    hide NewInstance, ApplyInstanceUpdates, PlacementError, RequestedType, AnotherHasType;
    hide UserStep, ClusterStep;
    if OnUser(r.verb) { UserNoDrop(db, r, pc); }
    if !OnUser(r.verb) && !OnInstance(r.verb) { ClusterNoDrop(db, r, pc); }
  }

  lemma UserNoDrop(db: Db, r: Request, pc: Pc)
    requires OnUser(r.verb) && !pc.InstanceDrop?
    ensures !UserStep(db, r, pc).1.InstanceDrop?
  {}

  lemma ClusterNoDrop(db: Db, r: Request, pc: Pc)
    requires !pc.InstanceDrop?
    ensures !ClusterStep(db, r, pc).1.InstanceDrop?
  {
    hide ClusterName, UserName, ClusterBody, InitialUserTarget, Sources, NewCluster, StringOrder.Sorted;
    hide ApplyClusterUpdates, CascadeEndpoint, DeleteUnder, DropOf, DropEndpoint, InstancesUnder;
  }

  // ── Up to the checks ──

  /** A look takes both runs to the same point, or ends the dry one where the real one commits. */
  ghost predicate Mirrors(dry: Pc, actual: Pc) {
    || (dry == actual && !Committed(actual))
    || (dry == Succeed() && Committed(actual))
  }

  lemma StartMirrors(db: Db, r: Request)
    ensures Mirrors(StartStep(db, Dry(r)), StartStep(db, Real(r)))
  {
    hide BuildInstanceUpdates, BuildClusterUpdates, BuildUserUpdates, RestoredCluster;
    hide InstanceRequestOk, ClusterRequestOk, UserTypeOk, IsValidUserId, ClusterName, InstanceName, UserName;
    match r.verb
    case UpdateInstance(_, _, _) =>
      assert Mirrors(StartInstanceUpdate(db, Dry(r)), StartInstanceUpdate(db, Real(r)));
    case UpdateCluster(_, _) =>
      assert Mirrors(StartClusterUpdate(db, Dry(r)), StartClusterUpdate(db, Real(r)));
    case UpdateUser(_, _, _) =>
      assert Mirrors(StartUserUpdate(db, Dry(r)), StartUserUpdate(db, Real(r)));
    case _ =>
  }

  lemma InstanceMirrors(db: Db, r: Request, pc: Pc)
    requires OnInstance(r.verb) && Looks(pc) && Fits(r, pc)
    ensures InstanceStep(db, Dry(r), pc).0 == db == InstanceStep(db, Real(r), pc).0
    ensures Mirrors(InstanceStep(db, Dry(r), pc).1, InstanceStep(db, Real(r), pc).1)
  {
    hide RequestedType, InstanceName, ClusterName, EndpointKey, DropEndpoint, NewInstance, ApplyInstanceUpdates;
    hide PlacementError, AnotherHasType, DropOf;
  }

  lemma ClusterMirrors(db: Db, r: Request, pc: Pc)
    requires !OnInstance(r.verb) && !OnUser(r.verb) && (pc.ClusterAbsent? || pc.ClusterCount?)
    ensures ClusterStep(db, Dry(r), pc).0 == db == ClusterStep(db, Real(r), pc).0
    ensures Mirrors(ClusterStep(db, Dry(r), pc).1, ClusterStep(db, Real(r), pc).1)
  {
    hide ClusterName, UserName, ClusterBody, InitialUserTarget, Sources, NewCluster, StringOrder.Sorted;
    hide ApplyClusterUpdates, CascadeEndpoint, DeleteUnder, DropOf, DropEndpoint, InstancesUnder;
  }

  lemma UserMirrors(db: Db, r: Request, pc: Pc)
    requires OnUser(r.verb) && (pc.UserParent? || pc.UserAbsent?)
    ensures UserStep(db, Dry(r), pc).0 == db == UserStep(db, Real(r), pc).0
    ensures Mirrors(UserStep(db, Dry(r), pc).1, UserStep(db, Real(r), pc).1)
  {
    hide UserName, ClusterName, NewUser, ApplyUserUpdates;
  }

  lemma StepMirrors(db: Db, r: Request, pc: Pc)
    requires Fits(r, pc) && !Committed(pc) && !pc.Finished?
    ensures Step(db, Dry(r), pc).0 == db == Step(db, Real(r), pc).0
    ensures Mirrors(Step(db, Dry(r), pc).1, Step(db, Real(r), pc).1)
  {
    hide StartStep, InstanceStep, ClusterStep, UserStep, Mirrors;
    if pc.Start? {
      StartMirrors(db, r);
    } else if OnInstance(r.verb) {
      InstanceMirrors(db, r, pc);
    } else if OnUser(r.verb) {
      UserMirrors(db, r, pc);
    } else {
      ClusterMirrors(db, r, pc);
    }
  }

  lemma SameChecks(db: Db, r: Request, pc: Pc)
    requires Fits(r, pc)
    ensures Fits(Dry(r), pc) && Fits(Real(r), pc)
    ensures PcOk(db, Real(r), pc) == PcOk(db, r, pc)
    ensures DropThrows(Real(r)) == DropThrows(r)
  {
    hide InstanceName, UserName, ClusterName, PlacementError, AnotherHasType, RequestedType, IsValidInstanceId;
    hide InstancesUnder, UsersUnder, ResolvedUserName, RestoredCluster, EndpointKey, DropOf;
  }

  lemma {:induction false} DryComplete(db: Db, r: Request, pc: Pc)
    requires ValidKey(r.key) && Fits(r, pc) && OwnNames(r.key, pc)
    requires ClusterOk(db, r.key) && PcOk(db, r, pc) && !Committed(pc)
    ensures Fits(Dry(r), pc) && Fits(Real(r), pc)
    ensures Complete(db, Dry(r), pc).0 == db
    ensures var dry, actual := Complete(db, Dry(r), pc).1, Complete(db, Real(r), pc).1;
            || (dry.Rejected? && actual == dry)
            || (dry.Accepted? && if DropThrows(r) then actual == Rejected(Internal) else actual.Accepted?)
    decreases Stage(pc)
  {
    SameChecks(db, r, pc);
    hide ClusterOk, PcOk, Step, OwnNames, DropThrows, AgreeOff, AgreeOn, Fits, ValidKey, Committed, Complete;
    if pc.Finished? {
      RejectedAlready(pc);
      CompleteEnd(db, Dry(r), pc.outcome);
      CompleteEnd(db, Real(r), pc.outcome);
    } else {
      StepMirrors(db, r, pc);
      CompleteStep(db, Dry(r), pc);
      CompleteStep(db, Real(r), pc);
      StepFits(db, Real(r), pc);
      StepFrame(db, db, Real(r), pc);
      StepOk(db, Real(r), pc);
      var next := Step(db, Real(r), pc).1;
      if Committed(next) {
        CompleteEnd(db, Dry(r), Accepted(false));
        CommittedAccepted(db, Real(r), next);
        if DropThrows(r) { CommitsAtDrop(db, r, pc); }
      } else {
        SameFits(r, next);
        SameChecks(db, r, next);
        DryComplete(db, r, next);
      }
    }
  }

  lemma RejectedAlready(pc: Pc)
    requires pc.Finished? && !Committed(pc)
    ensures pc.outcome.Rejected?
  {}

  lemma SameFits(r: Request, pc: Pc)
    requires Fits(Real(r), pc)
    ensures Fits(r, pc)
  {}

  /** An instance delete commits at its drop and nowhere else. */
  lemma CommitsAtDrop(db: Db, r: Request, pc: Pc)
    requires Fits(r, pc) && !Committed(pc) && !pc.Finished? && Committed(Step(db, Real(r), pc).1)
    requires DropThrows(r)
    ensures Step(db, Real(r), pc).1.InstanceDrop?
  {
    hide InstanceName, EndpointKey, DropOf, AnotherHasType;
  }

  /**
   * A dry run leaves every table as it was, operations included. It is rejected exactly when the real
   * call is, with the same error, save for the one failure no check can foresee: a delete whose drop throws.
   */
  lemma DryRunFaithful(db: Db, r: Request, e: ErrorCode)
    requires Inv(db) && ValidRequest(r)
    ensures Section(db, Dry(r)).0 == db
    ensures Section(db, Dry(r)).1 == Rejected(e) ==> Section(db, Real(r)).1 == Rejected(e)
    ensures Section(db, Real(r)).1 == Rejected(e) ==>
              Section(db, Dry(r)).1 == Rejected(e) || (DropThrows(r) && e == Internal)
    ensures !DropThrows(r) ==> (Section(db, Dry(r)).1 == Rejected(e) <==> Section(db, Real(r)).1 == Rejected(e))
    ensures DropThrows(r) ==> Section(db, Real(r)).1.Rejected?
  {
    StartStands(db, r);
    assert ClusterOk(db, r.key);
    hide ClusterOk, PcOk, OwnNames, DropThrows, Inv, Complete;
    DryComplete(db, r, Start);
  }

  /** Where the dry call succeeds, the real one fails exactly when it is a delete whose drop throws. */
  lemma DryRunMisleadsExactly(db: Db, r: Request)
    requires Inv(db) && ValidRequest(r) && Section(db, Dry(r)).1.Accepted?
    ensures Section(db, Real(r)).1.Rejected? <==> DropThrows(r)
    ensures DropThrows(r) ==> Section(db, Real(r)).1 == Rejected(Internal)
  {
    hide Inv, ValidRequest, DropThrows, Section;
    forall e
      ensures Section(db, Real(r)).1 == Rejected(e) ==>
                Section(db, Dry(r)).1 == Rejected(e) || (DropThrows(r) && e == Internal)
      ensures DropThrows(r) ==> Section(db, Real(r)).1.Rejected?
    {
      DryRunFaithful(db, r, e);
    }
    DryRunFaithful(db, r, Internal);
  }

  /** The delete of a lone PRIMARY whose drop throws: fine when dry, an internal error when real. */
  lemma DryRunCanMislead(k: Key, c: ClusterRow, i: InstanceRow, env: Env)
    requires ValidKey(k) && i.instanceType == PRIMARY
    requires env.drops == map[EndpointKey(k, "a") := Threw(true)]
    ensures var db := Db(map[ClusterName(k) := c], map[InstanceName(k, "a") := i], map[], {}, multiset{});
            var r := Request(k, DeleteInstance("a"), map[], false, env);
            && ValidRequest(r)
            && Section(db, Dry(r)) == (db, Accepted(false))
            && Section(db, Real(r)) == (db, Rejected(Internal))
  {
    hide ClusterName, InstanceName, EndpointKey, ClusterStep, UserStep;
    var db := Db(map[ClusterName(k) := c], map[InstanceName(k, "a") := i], map[], {}, multiset{});
    var r := Request(k, DeleteInstance("a"), map[], false, env);
    assert !AnotherHasType(db, k, InstanceName(k, "a"), READ_POOL);
    assert Step(db, Real(r), Start).1 == InstancePools && Step(db, Dry(r), Start).1 == InstancePools;
    assert Step(db, Dry(r), InstancePools) == (db, Succeed());
    assert Step(db, Real(r), InstancePools) == (db, InstanceDrop);
    assert Step(db, Real(r), InstanceDrop) == (db, Fail(Internal));
  }

  /** The same in every state any interleaving can reach. */
  lemma DryRunFaithfulWhenReached(db: Db, reqs: seq<Request>, acts: seq<Action>, r: Request, e: ErrorCode)
    requires Inv(db) && (forall t :: 0 <= t < |reqs| ==> ValidRequest(reqs[t]))
    requires Possible(db, reqs, acts) && ValidRequest(r)
    ensures var now := Run(db, reqs, acts).db;
            && Section(now, Dry(r)).0 == now
            && (!DropThrows(r) ==>
                  (Section(now, Dry(r)).1 == Rejected(e) <==> Section(now, Real(r)).1 == Rejected(e)))
  {
    RunDisciplined(db, reqs, acts);
    hide Inv, DropThrows, Section;
    DryRunFaithful(Run(db, reqs, acts).db, r, e);
  }

  // ── Types never change ──

  ghost predicate KeepsTypes(before: Db, after: Db) {
    forall n :: n in before.instances && n in after.instances ==>
      after.instances[n].instanceType == before.instances[n].instanceType
  }

  lemma InstanceStepKeepsTypes(db: Db, r: Request, pc: Pc)
    requires OnInstance(r.verb) && Fits(r, pc) && PcOk(db, r, pc)
    ensures KeepsTypes(db, InstanceStep(db, r, pc).0)
  {
    hide InstanceName, ClusterName, EndpointKey, DropOf, NewInstance, PlacementError;
    hide RequestedType, AnotherHasType, IsValidInstanceId;
  }

  lemma StepKeepsTypes(db: Db, r: Request, pc: Pc)
    requires Fits(r, pc) && PcOk(db, r, pc) && !pc.Finished?
    ensures KeepsTypes(db, Step(db, r, pc).0)
  {
    hide PcOk, InstanceStep;
    if OnInstance(r.verb) {
      if !pc.Start? && !pc.RecordOperation? { InstanceStepKeepsTypes(db, r, pc); }
    } else if !OnUser(r.verb) {
      ClusterStepKeepsTypes(db, r, pc);
    }
    hide ClusterStep, StartStep, Fits;
  }

  lemma ClusterStepKeepsTypes(db: Db, r: Request, pc: Pc)
    ensures KeepsTypes(db, ClusterStep(db, r, pc).0)
  {
    hide ClusterName, UserName, ClusterBody, InitialUserTarget, Sources, NewCluster, StringOrder.Sorted;
    hide ApplyClusterUpdates, CascadeEndpoint, DropOf, InstancesUnder, InstancePrefix, UserPrefix;
  }

  /** No update, create, rollback or cascade ever changes the type of an instance that stays. */
  lemma TypesNeverChange(db: Db, reqs: seq<Request>, acts: seq<Action>, a: Action)
    requires Inv(db) && (forall t :: 0 <= t < |reqs| ==> ValidRequest(reqs[t]))
    requires Possible(db, reqs, acts + [a])
    ensures Possible(db, reqs, acts)
    ensures KeepsTypes(Run(db, reqs, acts).db, Run(db, reqs, acts + [a]).db)
  {
    RunLast(db, reqs, acts, a);
    RunDisciplined(db, reqs, acts);
    hide Possible, Run, Inv, PcOk, Step, Fits, OwnNames, ValidRequest, LockName;
    var s := Run(db, reqs, acts);
    if a.Advance? {
      assert Standing(s, reqs, a.t);
      StepKeepsTypes(s.db, reqs[a.t], s.phases[a.t].pc);
    }
  }
}
