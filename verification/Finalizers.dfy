/** Holding on to a machine's resources and letting go of them: the finalizers the reboot controller
    takes, its farewell, and the teardown of the machine status, against the moves of `System`. */
module Finalizers {
  import opened Wire
  import opened Specs
  import opened Machine
  import opened Reconcile
  import opened Controllers
  import opened System

  /** A stored resource as the runtime keeps it, with its rules: no finalizer on a resource that is being
      torn down, no end to one that is not torn down or still held. */
  class Stored<T> {
    var res: Option<Res<T>>

    /** The calls that had been made when the finalizer came off. */
    var releasedAfter: Option<seq<Action>>

    constructor (res: Option<Res<T>>)
      ensures this.res == res && releasedAfter == None
    {
      this.res, releasedAfter := res, None;
    }

    method AddFinalizer() returns (ok: bool)
      requires res.Some?
      modifies this`res
      ensures ok <==> !Refuses(old(res))
      ensures res == if ok then Hold(old(res)) else old(res)
    {
      if res.value.phase == TearingDown && !res.value.held {
        return false;
      }
      res := Some(res.value.(held := true));
      return true;
    }

    /** May fail, and then changes nothing. */
    method RemoveFinalizer(succeeds: bool, session: Session) returns (ok: bool)
      requires res.Some?
      modifies this
      ensures ok <==> succeeds
      ensures res == if ok then Release(old(res)) else old(res)
      ensures releasedAfter == if ok then Some(session.acts) else old(releasedAfter)
    {
      if !succeeds {
        return false;
      }
      res := Some(res.value.(held := false));
      releasedAfter := Some(session.acts);
      return true;
    }

    /** Marks the resource; it is ready to go when nobody holds it. */
    method Teardown() returns (found: bool, ready: bool)
      modifies this`res
      ensures found <==> old(res).Some?
      ensures ready <==> found && !old(res).value.held
      ensures res == if found then Some(old(res).value.(phase := TearingDown)) else None
    {
      if res.None? {
        return false, false;
      }
      res := Some(res.value.(phase := TearingDown));
      return true, !res.value.held;
    }

    method Destroy() returns (ok: bool)
      modifies this`res
      ensures ok <==> old(res).Some? && old(res).value.phase == TearingDown && !old(res).value.held
      ensures res == if ok then None else old(res)
    {
      if res.None? || res.value.phase == Running || res.value.held {
        return false;
      }
      res := None;
      return true;
    }
  }

  /** The reboot transform's first act: a finalizer on each resource it finds, or failure. */
  method TakeFinalizers(status: Stored<MachineStatusFields>, bmc: Stored<BMCConfigurationFields>) returns (ok: bool)
    modifies status`res, bmc`res
    ensures ok <==> !Refuses(old(status.res)) && !Refuses(old(bmc.res))
    ensures status.res == if Refuses(old(status.res)) then old(status.res) else Hold(old(status.res))
    ensures bmc.res == if ok then Hold(old(bmc.res)) else old(bmc.res)
  {
    if status.res.Some? && !status.res.value.held {
      ok := status.AddFinalizer();
      if !ok {
        return;
      }
    }
    if bmc.res.Some? && !bmc.res.value.held {
      ok := bmc.AddFinalizer();
      if !ok {
        return;
      }
    }
    ok := true;
  }

  /** The farewell: the attempt first, then the finalizers off, the machine status's before the BMC
      configuration's. A removal that fails ends it, to be repeated from the attempt on. */
  method FinalizerRemoval(w: World, s: Sys, calls: RebootCalls, statusOk: bool, bmcOk: bool,
                          status: Stored<MachineStatusFields>,
                          bmc: Stored<BMCConfigurationFields>, session: Session) returns (done: bool)
    requires s.omni.Some? && s.omni.value.phase == TearingDown && status.res == s.status && bmc.res == s.bmc
    modifies status, bmc, session
    ensures var m := RemoveFinalizersMove(w, s, calls, statusOk, bmcOk); status.res == m.s.status && bmc.res == m.s.bmc
    ensures session.acts == old(session.acts) +
            AttemptRebootOnRemoval(w.cfg, s.omni.value, Values(s.bmc), Values(s.status), calls, s.now)
    ensures status.res != s.status ==> status.releasedAfter == Some(session.acts)
    ensures bmc.res != s.bmc ==> bmc.releasedAfter == Some(session.acts) && status.res == Release(s.status)
    ensures done <==> status.res == Release(s.status) && bmc.res == Release(s.bmc)
  {
    DoAttemptRebootOnRemoval(w.cfg, s.omni.value, Values(bmc.res), Values(status.res), calls, s.now, session);
    if status.res.Some? && status.res.value.held {
      done := status.RemoveFinalizer(statusOk, session);
      if !done {
        return;
      }
    }
    if bmc.res.Some? && bmc.res.value.held {
      done := bmc.RemoveFinalizer(bmcOk, session);
      if !done {
        return;
      }
    }
    done := true;
  }

  /** One reconcile of the machine status controller for a machine that is going or gone. `removed` is
      whether it may let go of the machine itself. */
  method ReconcileTearingDown(s: Sys, status: Stored<MachineStatusFields>) returns (removed: bool)
    requires (s.omni.Some? ==> s.omni.value.phase == TearingDown) && status.res == s.status
    modifies status`res
    ensures status.res == TearDownStatusMove(s).s.status
    ensures removed <==> status.res.None?
  {
    var found, ready := status.Teardown();
    if !found {
      return true;
    }
    if !ready {
      return false;
    }
    removed := status.Destroy();
  }
}
