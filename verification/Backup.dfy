/** The backup controller (controller/backup/backup.go) over whole runs. The service instance that
    is looked up and every reply of the Backup Manager are inputs. */
module Backup {
  import opened JsonDoc
  import opened BackupManager

  datatype Ready = Unknown | Creating | Available | Unavailable

  /** The Backup, as a pass holds it in memory. */
  class Managed {
    var annotation: Annotation
    var instanceID: string
    var backupID: Option<int>
    var status: string
    var ready: Ready
    var deleting: bool

    constructor ()
      ensures annotation == Unset && instanceID == "" && backupID == None && !deleting
    {
      annotation, instanceID, backupID := Unset, "", None;
      status, ready, deleting := "", Unknown, false;
    }
  }

  datatype BackupReply = BackupReply(backupID: Option<int>, status: string)

  /** initializeBackupStatus; instance is the id of the referenced service instance, None an error. */
  method InitializeBackupStatus(m: Managed, instance: Option<string>) returns (err: bool)
    modifies m`instanceID
    ensures err <==> old(m.instanceID) == ""
    ensures old(m.instanceID) != "" ==> m.instanceID == old(m.instanceID)
    ensures old(m.instanceID) == "" ==> (m.instanceID == if instance.Some? then instance.value else "")
  {
    err := false;
    if m.instanceID == "" {
      if instance == None || instance.value == "" {
        return true;
      }
      m.instanceID := instance.value;
      return true;
    }
  }

  method SetConditions(m: Managed) returns (err: bool)
    modifies m`ready
    ensures err <==> m.status !in {"queued", "running", "done", "failed", "deleted"}
    ensures err ==> m.ready == old(m.ready)
    ensures !err ==> (m.ready == Creating <==> m.status in {"queued", "running"}) && (m.ready == Available <==> m.status == "done")
    ensures !err ==> (m.ready == Unavailable <==> m.status in {"failed", "deleted"})
  {
    err := !Known(m.status);
    if !err {
      m.ready := if m.status == QUEUED || m.status == RUNNING then Creating
                 else if m.status == DONE then Available
                 else Unavailable;
    }
  }

  /** Observe. asked tells for which backup id the Backup Manager was asked. A Backup is absent if
      its annotation is unset, or if the Backup Manager says that the backup is deleted. */
  method Observe(m: Managed, instance: Option<string>, reply: Option<BackupReply>) returns (v: Verdict, asked: Option<int>)
    modifies m`instanceID, m`backupID, m`status, m`ready
    ensures old(m.instanceID) != "" ==> m.instanceID == old(m.instanceID)
    ensures v != ObserveFailed ==> old(m.instanceID) != ""
    ensures old(m.instanceID) == "" ==> (m.instanceID == if instance.Some? then instance.value else "")
    ensures asked.None? ==> m.backupID == old(m.backupID) && m.status == old(m.status) && m.ready == old(m.ready)
    ensures asked.Some? && reply.None? ==> m.backupID == asked && m.status == old(m.status)
    ensures v == Absent <==> old(m.instanceID) != ""
                             && (m.annotation == Unset || (asked.Some? && reply.Some? && reply.value.status == "deleted"))
    ensures v == Present <==> asked.Some? && reply.Some? && reply.value.status in {"queued", "running", "done", "failed"}
    ensures asked.Some? && reply.Some? ==> m.backupID == reply.value.backupID && m.status == reply.value.status
    ensures v == Absent && asked.Some? ==> reply.Some? && m.status == DELETED && m.backupID == reply.value.backupID
    ensures asked.Some? && reply.Some? && m.status in {"queued", "running", "done", "failed", "deleted"} ==>
              && (m.ready == Creating <==> m.status in {"queued", "running"}) && (m.ready == Available <==> m.status == "done")
              && (m.ready == Unavailable <==> m.status in {"failed", "deleted"})
    ensures asked == (if old(m.instanceID) == "" || m.annotation == Unset then None
                      else if old(m.backupID).Some? then old(m.backupID)
                      else if m.annotation.Number? then Some(m.annotation.id) else None)
  {
    asked := None;
    var err := InitializeBackupStatus(m, instance);
    if err {
      return ObserveFailed, None;
    }
    if m.annotation == Unset {
      return Absent, None;
    }
    if m.backupID == None {
      if m.annotation == Garbage {
        return ObserveFailed, None;
      }
      m.backupID := Some(m.annotation.id);
    }
    asked := m.backupID;
    if reply == None {
      return ObserveFailed, asked;
    }
    m.backupID, m.status := reply.value.backupID, reply.value.status;
    err := SetConditions(m);
    if err {
      return ObserveFailed, asked;
    }
    if m.status == DELETED {
      return Absent, asked;
    }
    return Present, asked;
  }

  /** A CreateBackup that was sent: for which instance, whether its id reached the annotation, and
      whether the Observe before it saw a deleted backup. */
  datatype Request = Request(instanceID: string, stored: bool, afterDeletion: bool)

  method Create(m: Managed, reply: CreateReply) returns (e: Ending)
    modifies m`annotation
    ensures m.annotation == if reply.Created? && reply.id.Some? then Number(reply.id.value) else old(m.annotation)
    ensures e == Crashed <==> reply == Created(None)
    ensures e == Failed <==> reply == Refused
  {
    match reply {
      case Refused => e := Failed;
      case Created(None) => e := Crashed;
      case Created(Some(id)) =>
        m.annotation := Number(id);
        e := Done;
    }
  }

  /** Delete; requested is the backup id whose deletion is requested, if any. */
  method Delete(m: Managed, ok: bool) returns (err: bool, requested: Option<int>)
    modifies m`backupID
    ensures requested == (if old(m.backupID).Some? then old(m.backupID)
                          else if m.annotation.Number? then Some(m.annotation.id) else None)
    ensures m.backupID == if requested.Some? then requested else old(m.backupID)
    ensures err <==> if requested.Some? then !ok else m.annotation == Garbage
  {
    requested := None;
    if m.backupID == None {
      if m.annotation == Unset {
        return false, None;
      }
      if m.annotation == Garbage {
        return true, None;
      }
      m.backupID := Some(m.annotation.id);
    }
    return !ok, m.backupID;
  }

  /** Every request after one whose id was stored follows an Observe that saw the backup deleted;
      all were sent for the same instance, and it was set. */
  ghost predicate OncePerLife(log: seq<Request>) {
    && (forall i, j | 0 <= i < j < |log| && log[i].stored :: log[j].afterDeletion)
    && (forall i | 0 <= i < |log| :: log[i].instanceID != "" && log[i].instanceID == log[0].instanceID)
  }

  ghost predicate EverStored(log: seq<Request>) {
    exists i | 0 <= i < |log| :: log[i].stored
  }

  datatype Happening = Reconcile(instance: Option<string>, observed: Option<BackupReply>, reply: CreateReply, deleteOk: bool) | AskDeletion

  /** What is stored about a Backup. */
  datatype Moment = Moment(annotation: Annotation, instanceID: string, backupID: Option<int>, status: string,
                           deleting: bool, released: bool)

  /** What an Observe makes of the stored moment, its verdict, and the id that it asks for. */
  function Seen(m: Moment, instance: Option<string>, observed: Option<BackupReply>): (Moment, Verdict, Option<int>) {
    if m.instanceID == "" then (m.(instanceID := if instance.Some? then instance.value else ""), ObserveFailed, None)
    else if m.annotation == Unset then (m, Absent, None)
    else if m.backupID == None && m.annotation == Garbage then (m, ObserveFailed, None)
    else
      var asked := if m.backupID.Some? then m.backupID else Some(m.annotation.id);
      if observed == None then (m.(backupID := asked), ObserveFailed, asked)
      else
        var status := observed.value.status;
        (m.(backupID := observed.value.backupID, status := status),
         if !Known(status) then ObserveFailed else if status == DELETED then Absent else Present, asked)
  }

  /** A reply without an id crashes the pass, so that the status stays what it was. */
  function Requested(m: Moment, seen: Moment, reply: CreateReply): Moment {
    match reply
    case Refused => seen
    case Created(None) => m
    case Created(Some(id)) => seen.(annotation := Number(id))
  }

  /** What follows from the verdict: the finalizer goes, or a request is sent; m is the moment
      before the pass. */
  function Acted(m: Moment, seen: Moment, v: Verdict, asked: Option<int>, reply: CreateReply): (Moment, seq<Request>) {
    match v
    case ObserveFailed => (seen, [])
    case Present =>
      (if seen.deleting && seen.backupID == None && seen.annotation.Number? then seen.(backupID := Some(seen.annotation.id)) else seen, [])
    case Absent =>
      if seen.deleting then (seen.(released := true), [])
      else (Requested(m, seen, reply), [Request(seen.instanceID, reply.Created? && reply.id.Some?, asked.Some?)])
  }

  /** The step from one stored moment to the next, and the requests it sends. */
  function Next(m: Moment, h: Happening): (Moment, seq<Request>) {
    match h
    case AskDeletion => (m.(deleting := true), [])
    case Reconcile(instance, observed, reply, deleteOk) =>
      if m.released then (m, [])
      else
        var (seen, v, asked) := Seen(m, instance, observed);
        Acted(m, seen, v, asked, reply)
  }

  function RunOf(m: Moment, happenings: seq<Happening>): (Moment, seq<Request>) {
    if happenings == [] then (m, [])
    else
      var front := RunOf(m, happenings[..|happenings| - 1]);
      var last := Next(front.0, happenings[|happenings| - 1]);
      (last.0, front.1 + last.1)
  }

  lemma StepFacts(m: Moment, instance: Option<string>, observed: Option<BackupReply>, reply: CreateReply)
    requires !m.released
    ensures var (seen, v, asked) := Seen(m, instance, observed);
            var (after, sent) := Acted(m, seen, v, asked, reply);
            && (m.instanceID != "" ==> after.instanceID == m.instanceID)
            && (after.released <==> m.deleting && v == Absent)
            && (v == Absent && !m.deleting && reply == Created(None) ==> after == m)
            && (v == Present ==> observed.Some? && seen.backupID == observed.value.backupID)
            && sent == (if v == Absent && !m.deleting
                        then [Request(m.instanceID, reply.Created? && reply.id.Some?, asked.Some?)] else [])
            && after.annotation == (if v == Absent && !m.deleting && reply.Created? && reply.id.Some?
                                    then Number(reply.id.value) else m.annotation)
            && (|sent| > 0 <==> v == Absent && !m.deleting)
            && (v == Absent && asked.Some? ==> observed.Some? && observed.value.status == DELETED)
  {
  }

  /** What a pass comes to: the finalizer goes exactly for an absent backup under deletion, an absent one
      that was asked for was reported deleted, and the deletion of a present one is requested under the id
      reported, or else the one in the annotation. */
  ghost predicate PassTells(before: Moment, after: Moment, v: Verdict, asked: Option<int>, requested: Option<int>,
                            observed: Option<BackupReply>) {
    && (before.instanceID != "" ==> after.instanceID == before.instanceID)
    && (after.released <==> before.deleting && v == Absent)
    && (v == Absent && asked.Some? ==> observed.Some? && observed.value.status == DELETED)
    && (v == Present ==> observed.Some?)
    && requested == if !before.deleting || v != Present then None
                    else if observed.value.backupID.Some? then observed.value.backupID
                    else if before.annotation.Number? then Some(before.annotation.id) else None
  }

  /** A pass that crashes leaves everything as it was. */
  lemma PassIs(m: Moment, seen: Moment, v: Verdict, asked: Option<int>, requested: Option<int>, instance: Option<string>,
               observed: Option<BackupReply>, reply: CreateReply, deleteOk: bool)
    requires !m.released && Seen(m, instance, observed) == (seen, v, asked)
    requires requested == if !m.deleting || v != Present then None
                          else if seen.backupID.Some? then seen.backupID
                          else if m.annotation.Number? then Some(m.annotation.id) else None
    ensures var h := Reconcile(instance, observed, reply, deleteOk);
            var (after, sent) := Next(m, h);
            && after == (if v == Absent && !m.deleting && reply == Created(None) then m else Acted(seen, seen, v, asked, reply).0)
            && sent == Acted(seen, seen, v, asked, reply).1
            && (|sent| > 0 <==> v == Absent && !m.deleting)
            && PassTells(m, after, v, asked, requested, observed)
  {
    StepFacts(m, instance, observed, reply);
  }

  class Reconciler {
    const m: Managed
    var released: bool
    ghost var log: seq<Request>

    ghost predicate Valid() reads this, m {
      && OncePerLife(log)
      && (log != [] ==> log[0].instanceID == m.instanceID)
      && (EverStored(log) ==> m.annotation != Unset)
    }

    function Stored(): Moment reads this, m {
      Moment(m.annotation, m.instanceID, m.backupID, m.status, m.deleting, released)
    }

    method ObserveOnce(instance: Option<string>, observed: Option<BackupReply>) returns (v: Verdict, asked: Option<int>)
      requires Valid()
      modifies m`instanceID, m`backupID, m`status, m`ready
      ensures Valid() && (Stored(), v, asked) == Seen(old(Stored()), instance, observed)
      ensures v == Absent ==> m.instanceID != "" && (m.annotation == Unset || asked.Some?)
    {
      v, asked := Observe(m, instance, observed);
    }

    constructor (m: Managed)
      requires m.instanceID == ""
      ensures Valid() && this.m == m && !released && log == []
    {
      this.m, released, log := m, false, [];
    }

    ghost method Log(r: Request)
      requires OncePerLife(log) && r.instanceID != "" && (log != [] ==> log[0].instanceID == r.instanceID)
      requires EverStored(log) ==> r.afterDeletion
      modifies this`log
      ensures OncePerLife(log) && log == old(log) + [r]
      ensures EverStored(log) <==> EverStored(old(log)) || r.stored
    {
      var before := log;
      log := log + [r];
      assert forall i | 0 <= i < |before| :: log[i] == before[i];
      assert log[|before|] == r;
    }

    /** What follows from the verdict. A crash is left to the pass to undo. */
    method Act(v: Verdict, asked: Option<int>, reply: CreateReply, deleteOk: bool) returns (e: Ending, requested: Option<int>)
      requires Valid() && !released && (v == Absent ==> m.instanceID != "" && (m.annotation == Unset || asked.Some?))
      modifies this, m`annotation, m`backupID
      ensures Valid()
      ensures e == Crashed ==> v == Absent && !m.deleting && reply == Created(None)
      ensures e == Crashed ==> Stored() == old(Stored())
      ensures e != Crashed ==> Stored() == Acted(old(Stored()), old(Stored()), v, asked, reply).0
      ensures log == old(log) + Acted(old(Stored()), old(Stored()), v, asked, reply).1
      ensures v == Absent && !m.deleting && reply == Created(None) ==> e == Crashed
      ensures requested == (if !m.deleting || v != Present then None
                            else if old(m.backupID).Some? then old(m.backupID)
                            else if m.annotation.Number? then Some(m.annotation.id) else None)
    {
      assert log + [] == log;
      e, requested := Done, None;
      if v == ObserveFailed {
        return;
      }
      if m.deleting {
        if v == Absent {
          released := true;
        } else {
          var err;
          err, requested := Delete(m, deleteOk);
        }
      } else if v == Absent {
        e := Create(m, reply);
        Log(Request(m.instanceID, reply.Created? && reply.id.Some?, asked.Some?));
      }
    }

    method Undo(backupID: Option<int>, status: string, ready: Ready)
      requires Valid()
      modifies m`backupID, m`status, m`ready
      ensures Valid() && Stored() == old(Stored()).(backupID := backupID, status := status)
    {
      m.backupID, m.status, m.ready := backupID, status, ready;
    }

    /** One pass. What a crashed one made of the status is lost. */
    method Pass(instance: Option<string>, observed: Option<BackupReply>, reply: CreateReply, deleteOk: bool)
      returns (v: Verdict, asked: Option<int>, requested: Option<int>)
      requires Valid() && !released
      modifies this, m`annotation, m`instanceID, m`backupID, m`status, m`ready
      ensures Valid()
      ensures Stored() == Next(old(Stored()), Reconcile(instance, observed, reply, deleteOk)).0
      ensures log == old(log) + Next(old(Stored()), Reconcile(instance, observed, reply, deleteOk)).1
      ensures |log| > |old(log)| <==> v == Absent && !m.deleting
      ensures PassTells(old(Stored()), Stored(), v, asked, requested, observed)
    {
      var storedID, storedStatus, storedReady := m.backupID, m.status, m.ready;
      v, asked := ObserveOnce(instance, observed);
      ghost var seen := Stored();
      var e;
      e, requested := Act(v, asked, reply, deleteOk);
      if e == Crashed { Undo(storedID, storedStatus, storedReady); }
      PassIs(old(Stored()), seen, v, asked, requested, instance, observed, reply, deleteOk);
    }
  }

  lemma RunStep(m: Moment, happenings: seq<Happening>, n: nat)
    requires n < |happenings|
    ensures var front := RunOf(m, happenings[..n]);
            RunOf(m, happenings[..n + 1]) == (Next(front.0, happenings[n]).0, front.1 + Next(front.0, happenings[n]).1)
  {
    assert happenings[..n + 1][..n] == happenings[..n];
  }

  /** One step of a run. */
  method Happen(c: Reconciler, h: Happening)
    requires c.Valid()
    modifies c, c.m
    ensures c.Valid()
    ensures c.Stored() == Next(old(c.Stored()), h).0 && c.log == old(c.log) + Next(old(c.Stored()), h).1
    ensures old(c.m.instanceID) != "" ==> c.m.instanceID == old(c.m.instanceID)
  {
    assert c.log + [] == c.log;
    match h {
      case Reconcile(instance, observed, reply, deleteOk) =>
        if !c.released { var v, asked, requested := c.Pass(instance, observed, reply, deleteOk); }
      case AskDeletion => c.m.deleting := true;
    }
  }

  /** Any run goes as RunOf says: a set instance id stays, no request is sent with an unset one, and
      every request after a stored one follows an Observe that saw the backup deleted. */
  method Run(c: Reconciler, happenings: seq<Happening>)
    requires c.Valid()
    modifies c, c.m
    ensures c.Valid()
    ensures c.Stored() == RunOf(old(c.Stored()), happenings).0 && c.log == old(c.log) + RunOf(old(c.Stored()), happenings).1
    ensures old(c.m.instanceID) != "" ==> c.m.instanceID == old(c.m.instanceID)
    ensures forall i, j | 0 <= i < j < |c.log| && c.log[i].stored :: c.log[j].afterDeletion
    ensures forall i | 0 <= i < |c.log| :: c.log[i].instanceID != ""
  {
    ghost var start, log := c.Stored(), c.log;
    for n := 0 to |happenings|
      invariant c.Valid()
      invariant c.Stored() == RunOf(start, happenings[..n]).0 && c.log == log + RunOf(start, happenings[..n]).1
      invariant old(c.m.instanceID) != "" ==> c.m.instanceID == old(c.m.instanceID)
    {
      RunStep(start, happenings, n);
      ghost var front := RunOf(start, happenings[..n]);
      Happen(c, happenings[n]);
      Appended(log, front.1, Next(front.0, happenings[n]).1);
    }
    assert happenings[..|happenings|] == happenings;
  }

  lemma RecreatedNext(m: Moment, id: int, newId: int)
    requires !m.deleting && !m.released && m.instanceID != "" && m.annotation != Unset && m.backupID == Some(id)
    ensures Next(m, Reconcile(None, Some(BackupReply(Some(id), DELETED)), Created(Some(newId)), true))
            == (m.(status := DELETED, annotation := Number(newId)), [Request(m.instanceID, true, true)])
  {
  }

  /** At most one request per Backup is not kept: once the backup id is in the status and the
      Backup Manager reports that backup as deleted, every further pass sends a request, since the
      status goes on naming the deleted backup and not the one just created. */
  method DeletedBackupIsRecreated(c: Reconciler, id: int, newIds: seq<int>)
    requires c.Valid() && !c.m.deleting && !c.released
    requires c.m.instanceID != "" && c.m.annotation != Unset && c.m.backupID == Some(id)
    modifies c, c.m
    ensures c.Valid() && |c.log| == |old(c.log)| + |newIds|
    ensures forall i | |old(c.log)| <= i < |c.log| :: c.log[i].stored
    ensures c.m.backupID == Some(id)
  {
    for n := 0 to |newIds|
      invariant c.Valid() && !c.m.deleting && !c.released
      invariant c.m.instanceID != "" && c.m.annotation != Unset && c.m.backupID == Some(id)
      invariant |c.log| == |old(c.log)| + n
      invariant forall i | |old(c.log)| <= i < |c.log| :: c.log[i].stored
    {
      ghost var before, log := c.Stored(), c.log;
      RecreatedNext(before, id, newIds[n]);
      Happen(c, Reconcile(None, Some(BackupReply(Some(id), DELETED)), Created(Some(newIds[n])), true));
      assert c.log == log + [Request(before.instanceID, true, true)];
      assert c.Stored() == before.(status := DELETED, annotation := Number(newIds[n]));
    }
  }
}
