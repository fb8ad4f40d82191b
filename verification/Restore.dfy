/** The restore controller (controller/restore/restore.go) over whole runs. The backup that is
    looked up and every reply of the Backup Manager are inputs. */
module Restore {
  import opened JsonDoc
  import opened BackupManager

  datatype Ready = Unknown | Creating | Available | Unavailable | Erroneous

  /** The Restore, as a pass holds it in memory. */
  class Managed {
    var annotation: Annotation
    var instanceID: string
    var backupID: Option<int>
    var restoreID: Option<int>
    var state: string
    var ready: Ready
    var deleting: bool

    constructor ()
      ensures annotation == Unset && instanceID == "" && backupID == None && restoreID == None && !deleting
    {
      annotation, instanceID, backupID, restoreID := Unset, "", None, None;
      state, ready, deleting := "", Unknown, false;
    }
  }

  /** The referenced backup: its instance id and backup id. */
  datatype BackupRef = BackupRef(instanceID: string, backupID: Option<int>)

  /** GetRestore: None is an error. */
  datatype RestoreReply = RestoreReply(restoreID: Option<int>, status: string)

  predicate Usable(backup: Option<BackupRef>) {
    backup.Some? && backup.value.instanceID != "" && backup.value.backupID.Some?
  }

  /** initializeRestoreStatus: both ids are taken from the backup together, and setting them ends
      the pass with an error so that they are stored. */
  method InitializeRestoreStatus(m: Managed, backup: Option<BackupRef>) returns (err: bool)
    modifies m`instanceID, m`backupID
    ensures err <==> old(m.instanceID) == "" || old(m.backupID) == None
    ensures !err || !Usable(backup) ==> m.instanceID == old(m.instanceID) && m.backupID == old(m.backupID)
    ensures err && Usable(backup) ==> backup == Some(BackupRef(m.instanceID, m.backupID))
  {
    err := false;
    if m.instanceID == "" || m.backupID == None {
      if backup == None || backup.value.instanceID == "" || backup.value.backupID == None {
        return true;
      }
      m.instanceID := backup.value.instanceID;
      m.backupID := backup.value.backupID;
      return true;
    }
  }

  method SetConditions(m: Managed)
    modifies m`ready
    ensures m.ready == Creating <==> m.state in {"queued", "running"}
    ensures m.ready == Available <==> m.state == "done"
    ensures m.ready == Unavailable <==> m.state in {"failed", "deleted"}
    ensures m.ready == Erroneous <==> m.state !in {"queued", "running", "done", "failed", "deleted"}
  {
    m.ready := if m.state == QUEUED then Creating
               else if m.state == RUNNING then Creating
               else if m.state == DONE then Available
               else if m.state == FAILED then Unavailable
               else if m.state == DELETED then Unavailable
               else Erroneous;
  }

  method CheckForDeletion(m: Managed) returns (deletionPath: bool, err: bool)
    ensures deletionPath <==> m.deleting
    ensures err <==> m.deleting && m.state in {"queued", "running"}
  {
    if !m.deleting {
      return false, false;
    }
    return true, m.state == QUEUED || m.state == RUNNING;
  }

  /** Observe. asked tells for which restore id the Backup Manager was asked.
      - No id at all, and only that, makes a Restore that is not being deleted absent.
      - Under deletion it is absent only if the Backup Manager was not asked or answered with a
        state other than queued and running. */
  method Observe(m: Managed, backup: Option<BackupRef>, reply: Option<RestoreReply>) returns (v: Verdict, asked: Option<int>)
    modifies m`instanceID, m`backupID, m`restoreID, m`state, m`ready
    ensures old(m.instanceID) != "" && old(m.backupID).Some? ==> m.instanceID == old(m.instanceID) && m.backupID == old(m.backupID)
    ensures v != ObserveFailed ==> old(m.instanceID) != "" && old(m.backupID).Some?
    ensures old(m.instanceID) == "" || old(m.backupID) == None ==>
              (if Usable(backup) then backup == Some(BackupRef(m.instanceID, m.backupID))
               else m.instanceID == old(m.instanceID) && m.backupID == old(m.backupID))
    ensures asked.None? ==> m.restoreID == old(m.restoreID) && m.state == old(m.state) && m.ready == old(m.ready)
    ensures asked.Some? && reply.None? ==> m.restoreID == asked && m.state == old(m.state)
    ensures !m.deleting ==> (v == Absent <==> old(m.instanceID) != "" && old(m.backupID).Some?
                                              && m.annotation == Unset && old(m.restoreID) == None)
    ensures v == Present <==> !m.deleting && asked.Some? && reply.Some?
    ensures m.deleting ==>
              (v == Absent <==> old(m.instanceID) != "" && old(m.backupID).Some?
                                && if asked.Some? then reply.Some? && reply.value.status !in {"queued", "running"}
                                   else m.annotation == Unset && old(m.restoreID) == None)
    ensures asked.Some? && reply.Some? ==> m.restoreID == reply.value.restoreID && m.state == reply.value.status
    ensures asked.Some? && reply.Some? ==>
              && (m.ready == Creating <==> m.state in {"queued", "running"}) && (m.ready == Available <==> m.state == "done")
              && (m.ready == Unavailable <==> m.state in {"failed", "deleted"})
    ensures asked.Some? <==> old(m.instanceID) != "" && old(m.backupID).Some? && (old(m.restoreID).Some? || m.annotation.Number?)
    ensures m.deleting && v == Absent && asked.Some? ==> reply.Some? && m.state == reply.value.status && m.state !in {"queued", "running"}
    ensures asked.None? && v == Absent ==> m.annotation == Unset && m.restoreID == None
    ensures asked.Some? ==> asked == (if old(m.restoreID).Some? then old(m.restoreID)
                                      else if m.annotation.Number? then Some(m.annotation.id) else None)
  {
    asked := None;
    var err := InitializeRestoreStatus(m, backup);
    if err {
      return ObserveFailed, None;
    }
    if m.annotation == Unset && m.restoreID == None {
      return Absent, None;
    }
    if m.restoreID == None {
      if m.annotation == Garbage {
        return ObserveFailed, None;
      }
      m.restoreID := Some(m.annotation.id);
    }
    asked := m.restoreID;
    if reply == None {
      return ObserveFailed, asked;
    }
    m.restoreID, m.state := reply.value.restoreID, reply.value.status;
    SetConditions(m);
    var deletionPath;
    deletionPath, err := CheckForDeletion(m);
    if deletionPath {
      return if err then ObserveFailed else Absent, asked;
    }
    return Present, asked;
  }

  /** A CreateRestore that was sent, and whether its id reached the annotation. */
  datatype Request = Request(instanceID: string, backupID: int, stored: bool)

  method Create(m: Managed, reply: CreateReply) returns (e: Ending, sent: Request)
    requires m.backupID.Some?
    modifies m`annotation
    ensures sent == Request(m.instanceID, m.backupID.value, reply.Created? && reply.id.Some?)
    ensures m.annotation == if sent.stored then Number(reply.id.value) else old(m.annotation)
    ensures e == Crashed <==> reply == Created(None)
    ensures e == Failed <==> reply == Refused
  {
    sent := Request(m.instanceID, m.backupID.value, reply.Created? && reply.id.Some?);
    match reply {
      case Refused => e := Failed;
      case Created(None) => e := Crashed;
      case Created(Some(id)) =>
        m.annotation := Number(id);
        e := Done;
    }
  }

  method Delete(m: Managed) returns (err: bool)
    ensures err <==> m.state in {"queued", "running"}
  {
    err := m.state == QUEUED || m.state == RUNNING;
  }

  /** At most one request had its id stored, and it was the last one sent; all were sent for the
      same instance and backup, and both were set. */
  ghost predicate AtMostOnce(log: seq<Request>) {
    && (forall i | 0 <= i < |log| - 1 :: !log[i].stored)
    && (forall i | 0 <= i < |log| :: log[i].instanceID != "" && log[i].instanceID == log[0].instanceID && log[i].backupID == log[0].backupID)
  }

  datatype Happening = Reconcile(backup: Option<BackupRef>, observed: Option<RestoreReply>, reply: CreateReply) | AskDeletion

  /** What is stored about a Restore. */
  datatype Moment = Moment(annotation: Annotation, instanceID: string, backupID: Option<int>, restoreID: Option<int>,
                           state: string, deleting: bool, released: bool)

  /** What an Observe makes of the stored moment, its verdict, and the id that it asks for. */
  function Seen(m: Moment, backup: Option<BackupRef>, observed: Option<RestoreReply>): (Moment, Verdict, Option<int>) {
    if m.instanceID == "" || m.backupID == None then
      (if Usable(backup) then m.(instanceID := backup.value.instanceID, backupID := backup.value.backupID) else m, ObserveFailed, None)
    else if m.annotation == Unset && m.restoreID == None then (m, Absent, None)
    else if m.restoreID == None && m.annotation == Garbage then (m, ObserveFailed, None)
    else
      var asked := if m.restoreID.Some? then m.restoreID else Some(m.annotation.id);
      if observed == None then (m.(restoreID := asked), ObserveFailed, asked)
      else
        var seen := m.(restoreID := observed.value.restoreID, state := observed.value.status);
        (seen, if !m.deleting then Present else if InProgress(seen.state) then ObserveFailed else Absent, asked)
  }

  /** What follows from the verdict: the finalizer goes, or a request is sent. */
  function Acted(seen: Moment, v: Verdict, reply: CreateReply): (Moment, seq<Request>) {
    if v != Absent || seen.backupID == None then (seen, [])
    else if seen.deleting then (seen.(released := true), [])
    else if reply.Created? && reply.id.Some? then
      (seen.(annotation := Number(reply.id.value)), [Request(seen.instanceID, seen.backupID.value, true)])
    else (seen, [Request(seen.instanceID, seen.backupID.value, false)])
  }

  /** The step from one stored moment to the next, and the requests it sends. */
  function Next(m: Moment, h: Happening): (Moment, seq<Request>) {
    match h
    case AskDeletion => (m.(deleting := true), [])
    case Reconcile(backup, observed, reply) =>
      if m.released then (m, [])
      else
        var (seen, v, asked) := Seen(m, backup, observed);
        Acted(seen, v, reply)
  }

  /** Exactly one request goes out for an absent restore that is not being deleted, and none
      otherwise; it names the stored ids, and the id of the reply goes to the annotation. The
      finalizer goes exactly for an absent restore under deletion. */
  lemma StepFacts(m: Moment, backup: Option<BackupRef>, observed: Option<RestoreReply>, reply: CreateReply)
    requires !m.released
    ensures var (seen, v, asked) := Seen(m, backup, observed);
            var (after, sent) := Next(m, Reconcile(backup, observed, reply));
            && sent == (if v == Absent && !m.deleting && m.backupID.Some?
                        then [Request(m.instanceID, m.backupID.value, reply.Created? && reply.id.Some?)] else [])
            && (v == Absent ==> m.instanceID != "" && m.backupID.Some?)
            && after.annotation == (if v == Absent && !m.deleting && reply.Created? && reply.id.Some?
                                    then Number(reply.id.value) else m.annotation)
            && (after.released <==> m.deleting && v == Absent)
            && (after.released && asked.Some? ==> observed.Some? && observed.value.status !in {"queued", "running"})
  {
  }

  function RunOf(m: Moment, happenings: seq<Happening>): (Moment, seq<Request>) {
    if happenings == [] then (m, [])
    else
      var front := RunOf(m, happenings[..|happenings| - 1]);
      var last := Next(front.0, happenings[|happenings| - 1]);
      (last.0, front.1 + last.1)
  }

  /** The managed reconciler around one Restore: status and annotation are stored at the end of a
      pass that does not crash, and released means that the finalizer is removed. */
  class Reconciler {
    const m: Managed
    var released: bool
    ghost var log: seq<Request>

    ghost predicate Valid() reads this, m {
      && AtMostOnce(log)
      && (m.instanceID == "" <==> m.backupID == None)
      && (log != [] ==> log[0].instanceID == m.instanceID && Some(log[0].backupID) == m.backupID)
      && (log != [] && log[|log| - 1].stored ==> m.annotation.Number?)
    }

    function Stored(): Moment reads this, m {
      Moment(m.annotation, m.instanceID, m.backupID, m.restoreID, m.state, m.deleting, released)
    }

    method ObserveOnce(backup: Option<BackupRef>, observed: Option<RestoreReply>) returns (v: Verdict, asked: Option<int>)
      requires Valid()
      modifies m`instanceID, m`backupID, m`restoreID, m`state, m`ready
      ensures Valid() && (Stored(), v, asked) == Seen(old(Stored()), backup, observed)
      ensures v == Absent && !m.deleting ==> Stored() == old(Stored())
      ensures m.deleting && v == Absent && asked.Some? ==> observed.Some? && !InProgress(observed.value.status)
      ensures old(m.instanceID) != "" && old(m.backupID).Some? ==> m.instanceID == old(m.instanceID) && m.backupID == old(m.backupID)
      ensures v == Absent ==> m.backupID.Some? && (m.deleting || m.annotation == Unset)
    {
      v, asked := Observe(m, backup, observed);
    }

    constructor (m: Managed)
      requires m.instanceID == "" && m.backupID == None
      ensures Valid() && this.m == m && !released && log == []
    {
      this.m, released, log := m, false, [];
    }

    ghost method Log(r: Request)
      requires Valid() && r.instanceID == m.instanceID != "" && Some(r.backupID) == m.backupID
      requires log != [] ==> !log[|log| - 1].stored
      modifies this`log
      ensures AtMostOnce(log) && log == old(log) + [r]
    {
      log := log + [r];
    }

    /** What follows from the verdict. */
    method Act(v: Verdict, reply: CreateReply) returns (e: Ending)
      requires Valid() && !released && (v == Absent ==> m.backupID.Some? && (m.deleting || m.annotation == Unset))
      modifies this, m`annotation
      ensures Valid()
      ensures e == Crashed ==> v == Absent && !m.deleting
      ensures released ==> m.deleting && v == Absent
      ensures Stored() == Acted(old(Stored()), v, reply).0 && log == old(log) + Acted(old(Stored()), v, reply).1
    {
      assert log + [] == log;
      e := Done;
      if v == ObserveFailed {
        return;
      }
      if m.deleting {
        if v == Absent {
          released := true;
        } else {
          var err := Delete(m);
        }
      } else if v == Absent {
        var sent;
        e, sent := Create(m, reply);
        Log(sent);
      }
    }

    method Undo(restoreID: Option<int>, state: string, ready: Ready)
      requires Valid()
      modifies m`restoreID, m`state, m`ready
      ensures Valid() && Stored() == old(Stored()).(restoreID := restoreID, state := state)
    {
      m.restoreID, m.state, m.ready := restoreID, state, ready;
    }

    /** One pass. What a crashed one made of the status is lost. */
    method Pass(backup: Option<BackupRef>, observed: Option<RestoreReply>, reply: CreateReply) returns (v: Verdict, asked: Option<int>)
      requires Valid() && !released
      modifies this, m`annotation, m`instanceID, m`backupID, m`restoreID, m`state, m`ready
      ensures Valid()
      ensures Stored() == Next(old(Stored()), Reconcile(backup, observed, reply)).0
      ensures log == old(log) + Next(old(Stored()), Reconcile(backup, observed, reply)).1
      ensures old(m.instanceID) != "" ==> m.instanceID == old(m.instanceID) && m.backupID == old(m.backupID)
      ensures released ==> m.deleting && v == Absent && (asked.Some? ==> observed.Some? && observed.value.status !in {"queued", "running"})
      ensures |log| == |old(log)| + if v == Absent && !m.deleting then 1 else 0
      ensures released <==> m.deleting && v == Absent
    {
      StepFacts(Stored(), backup, observed, reply);
      var restoreID, state, ready := m.restoreID, m.state, m.ready;
      v, asked := ObserveOnce(backup, observed);
      var e := Act(v, reply);
      if e == Crashed {
        assert m.restoreID == restoreID && m.state == state;
        Undo(restoreID, state, ready);
      }
    }
  }

  lemma RunStep(m: Moment, happenings: seq<Happening>, n: nat)
    requires n < |happenings|
    ensures var front := RunOf(m, happenings[..n]);
            RunOf(m, happenings[..n + 1]) == (Next(front.0, happenings[n]).0, front.1 + Next(front.0, happenings[n]).1)
  {
    assert happenings[..n + 1][..n] == happenings[..n];
  }

  /** One step of a run. */
  method Happen(c: Reconciler, h: Happening)
    requires c.Valid()
    modifies c, c.m
    ensures c.Valid()
    ensures c.Stored() == Next(old(c.Stored()), h).0 && c.log == old(c.log) + Next(old(c.Stored()), h).1
    ensures old(c.m.instanceID) != "" ==> c.m.instanceID == old(c.m.instanceID) && c.m.backupID == old(c.m.backupID)
  {
    assert c.log + [] == c.log;
    match h {
      case Reconcile(backup, observed, reply) =>
        if !c.released { var v, asked := c.Pass(backup, observed, reply); }
      case AskDeletion => c.m.deleting := true;
    }
  }

  /** Any run goes as RunOf says: once a request's id is stored no other request is ever sent, no
      request is sent with an unset id, and ids that are set stay. */
  method Run(c: Reconciler, happenings: seq<Happening>)
    requires c.Valid()
    modifies c, c.m
    ensures c.Valid()
    ensures c.Stored() == RunOf(old(c.Stored()), happenings).0 && c.log == old(c.log) + RunOf(old(c.Stored()), happenings).1
    ensures old(c.m.instanceID) != "" ==> c.m.instanceID == old(c.m.instanceID) && c.m.backupID == old(c.m.backupID)
    ensures forall i | 0 <= i < |c.log| - 1 :: !c.log[i].stored
    ensures forall i | 0 <= i < |c.log| :: c.log[i].instanceID != ""
  {
    ghost var start, log := c.Stored(), c.log;
    for n := 0 to |happenings|
      invariant c.Valid()
      invariant c.Stored() == RunOf(start, happenings[..n]).0 && c.log == log + RunOf(start, happenings[..n]).1
      invariant old(c.m.instanceID) != "" ==> c.m.instanceID == old(c.m.instanceID) && c.m.backupID == old(c.m.backupID)
    {
      RunStep(start, happenings, n);
      ghost var front := RunOf(start, happenings[..n]);
      Happen(c, happenings[n]);
      Appended(log, front.1, Next(front.0, happenings[n]).1);
    }
    assert happenings[..|happenings|] == happenings;
  }
}
