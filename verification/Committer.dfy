/** The committer: half-object merge patches that carry the uid and resourceVersion which
    were read (bind/pkg/committer/committer.go), against an API server with optimistic
    locking. */
module Committer {
  import opened JsonDoc
  import opened MergePatch

  const UID := "uid"
  const RV := "resourceVersion"

  /** Resource[Sp, St]; meta is the rest of the object metadata, as it marshals. */
  datatype Resource = Resource(uid: string, resourceVersion: string, meta: Fields, spec: Json, status: Json) {
    predicate WellFormed() {
      UID !in meta && RV !in meta
    }

    predicate Identified() {
      WellFormed() && uid != "" && resourceVersion != ""
    }
  }

  /** Which half of the object a patch speaks about. */
  datatype Half = SpecAndMeta | Status

  predicate SpecOrMetaChanged(base: Resource, obj: Resource) {
    base.uid != obj.uid || base.resourceVersion != obj.resourceVersion || base.meta != obj.meta || base.spec != obj.spec
  }

  predicate StatusChanged(base: Resource, obj: Resource) {
    base.status != obj.status
  }

  /** Object metadata as JSON; empty uid and resourceVersion are omitted. */
  function MetaDoc(uid: string, rv: string, meta: Fields): Fields {
    meta
    + (if uid == "" then map[] else map[UID := Str(uid)])
    + (if rv == "" then map[] else map[RV := Str(rv)])
  }

  const ZERO_META: Fields := map["creationTimestamp" := Null]

  /** forPatch followed by the assignment of uid and resourceVersion, marshalled. The spec
      pointer has no omitempty, the status pointer has. */
  function HalfDoc(r: Resource, half: Half, uid: string, rv: string): Fields {
    match half
    case SpecAndMeta => map["metadata" := Obj(MetaDoc(uid, rv, r.meta)), "spec" := r.spec]
    case Status => map["metadata" := Obj(MetaDoc(uid, rv, ZERO_META)), "spec" := Null, "status" := r.status]
  }

  function PatchFor(base: Resource, obj: Resource, half: Half): Fields {
    Diff(HalfDoc(base, half, "", ""), HalfDoc(obj, half, base.uid, base.resourceVersion))
  }

  function MemberOrNull(m: Fields, k: string): Json {
    if k in m then m[k] else Null
  }

  function FieldsOf(v: Json): Fields {
    if v.Obj? then v.fields else map[]
  }

  function FullDoc(r: Resource): Fields {
    map["metadata" := Obj(MetaDoc(r.uid, r.resourceVersion, r.meta)), "spec" := r.spec, "status" := r.status]
  }

  /** The server merges the patch into the stored object, refuses it when the merged uid or
      resourceVersion is not the stored one, and otherwise keeps only the half that the
      endpoint owns, under a fresh resourceVersion. */
  function Patched(stored: Resource, patch: Fields, half: Half, newRv: string): Option<Resource> {
    var doc := MergeFields(FullDoc(stored), patch);
    var meta := FieldsOf(MemberOrNull(doc, "metadata"));
    if MemberOrNull(meta, UID) != Str(stored.uid) || MemberOrNull(meta, RV) != Str(stored.resourceVersion) then
      None
    else match half
      case SpecAndMeta =>
        Some(Resource(stored.uid, newRv, meta - {UID, RV}, MemberOrNull(doc, "spec"), stored.status))
      case Status =>
        Some(stored.(resourceVersion := newRv, status := MemberOrNull(doc, "status")))
  }

  /** What a commit is meant to do: the changed half becomes the new one, the other stays. */
  function Intended(base: Resource, obj: Resource, half: Half, newRv: string): Resource {
    match half
    case SpecAndMeta => Resource(base.uid, newRv, obj.meta, obj.spec, base.status)
    case Status => base.(resourceVersion := newRv, status := obj.status)
  }

  predicate ValueNotNew(a: Json, b: Json) {
    if a.Obj? && b.Obj? then NoNewNulls(a.fields, b.fields) else a == b || b == Null || NullFree(b)
  }

  /** The changed half brings in no null that the old half did not hold. */
  predicate HalfWithoutNewNulls(base: Resource, obj: Resource, half: Half) {
    match half
    case SpecAndMeta => NoNewNulls(base.meta, obj.meta) && ValueNotNew(base.spec, obj.spec)
    case Status => ValueNotNew(base.status, obj.status)
  }

  /** One member under its key: patch, merge, compare. */
  lemma ValueRoundTrip(t: Fields, p: Fields, k: string, a: Json, b: Json)
    requires k in t && t[k] == a
    requires k in p <==> DiffMember(a, b).Some?
    requires k in p ==> p[k] == DiffMember(a, b).value
    ensures MemberOrNull(MergeFields(t, p), k) == b <==> ValueNotNew(a, b)
  {
    var x, y := map[k := a], map[k := b];
    MemberRoundTrip(x, x, y, k);
    assert Diff(x, y) == if k in p then map[k := p[k]] else map[];
    assert k in MergeFields(t, p) <==> k in MergeFields(x, Diff(x, y));
    assert k in MergeFields(t, p) ==> MergeFields(t, p)[k] == MergeFields(x, Diff(x, y))[k];
  }

  lemma MetaNulls(base: Fields, obj: Fields, uid: string, rv: string)
    requires UID !in base && RV !in base && UID !in obj && RV !in obj
    ensures NoNewNulls(base, MetaDoc(uid, rv, obj)) <==> NoNewNulls(base, obj)
  {
    var doc := MetaDoc(uid, rv, obj);
    forall k | k in doc && k !in obj ensures MemberNotNew(base, k, doc[k]) {
    }
    forall k | k in obj ensures k in doc && doc[k] == obj[k] {
    }
    assert NoNewNulls(base, doc) <==> forall k <- doc :: MemberNotNew(base, k, doc[k]);
    assert NoNewNulls(base, obj) <==> forall k <- obj :: MemberNotNew(base, k, obj[k]);
  }

  lemma MetaDocMembers(uid: string, rv: string, meta: Fields)
    requires UID !in meta && RV !in meta
    ensures var doc := MetaDoc(uid, rv, meta);
            && UID != RV
            && (UID in doc <==> uid != "") && (uid != "" ==> doc[UID] == Str(uid))
            && (RV in doc <==> rv != "") && (rv != "" ==> doc[RV] == Str(rv))
            && (forall k :: k != UID && k != RV ==> (k in doc <==> k in meta))
            && (forall k <- meta :: k in doc && doc[k] == meta[k])
            && doc - {UID, RV} == meta
  {
  }

  /** The metadata part of a spec patch, merged into the metadata of the version that was read. */
  lemma MetaRoundTrip(base: Resource, obj: Fields)
    requires base.Identified() && UID !in obj && RV !in obj
    ensures var doc := MetaDoc(base.uid, base.resourceVersion, obj);
            MergeFields(MetaDoc(base.uid, base.resourceVersion, base.meta), Diff(base.meta, doc)) == doc
            <==> NoNewNulls(base.meta, obj)
  {
    var full := MetaDoc(base.uid, base.resourceVersion, base.meta);
    var doc := MetaDoc(base.uid, base.resourceVersion, obj);
    MetaNulls(base.meta, obj, base.uid, base.resourceVersion);
    assert Covers(full, base.meta, doc) && (full - base.meta.Keys) + doc == doc by {
      MetaDocMembers(base.uid, base.resourceVersion, base.meta);
      MetaDocMembers(base.uid, base.resourceVersion, obj);
    }
    DiffRoundTrip(full, base.meta, doc);
  }

  function OldMeta(base: Resource, half: Half): Fields {
    if half == SpecAndMeta then base.meta else ZERO_META
  }

  function NewMeta(base: Resource, obj: Resource, half: Half): Fields {
    MetaDoc(base.uid, base.resourceVersion, if half == SpecAndMeta then obj.meta else ZERO_META)
  }

  /** One member of a difference. */
  lemma DiffAt(a: Fields, b: Fields, k: string)
    ensures var d := Diff(a, b);
            if k in a && k in b then
              (k in d <==> DiffMember(a[k], b[k]).Some?) && (k in d ==> d[k] == DiffMember(a[k], b[k]).value)
            else if k in b then k in d && d[k] == b[k]
            else (k in d <==> k in a) && (k in d ==> d[k] == Null)
  {
  }

  /** The members of a patch, one by one. */
  lemma PatchMembers(base: Resource, obj: Resource, half: Half)
    ensures var p := PatchFor(base, obj, half);
            var d := Diff(OldMeta(base, half), NewMeta(base, obj, half));
            && (if d == map[] then "metadata" !in p else "metadata" in p && p["metadata"] == Obj(d))
            && (if half == SpecAndMeta && DiffMember(base.spec, obj.spec).Some?
                then "spec" in p && p["spec"] == DiffMember(base.spec, obj.spec).value
                else "spec" !in p)
            && (if half == Status && DiffMember(base.status, obj.status).Some?
                then "status" in p && p["status"] == DiffMember(base.status, obj.status).value
                else "status" !in p)
  {
    var a, b := HalfDoc(base, half, "", ""), HalfDoc(obj, half, base.uid, base.resourceVersion);
    assert MetaDoc("", "", OldMeta(base, half)) == OldMeta(base, half);
    assert a["metadata"] == Obj(OldMeta(base, half)) && b["metadata"] == Obj(NewMeta(base, obj, half));
    DiffAt(a, b, "metadata");
    DiffAt(a, b, "spec");
    DiffAt(a, b, "status");
  }

  /** The patch always carries the uid and the resourceVersion that were read, whatever changed. */
  lemma PatchCarriesPreconditions(base: Resource, obj: Resource, half: Half)
    requires base.WellFormed() && obj.WellFormed()
    ensures var meta := FieldsOf(MemberOrNull(PatchFor(base, obj, half), "metadata"));
            && MemberOrNull(meta, UID) == (if base.uid == "" then Null else Str(base.uid))
            && MemberOrNull(meta, RV) == (if base.resourceVersion == "" then Null else Str(base.resourceVersion))
  {
    PatchMembers(base, obj, half);
    var m := if half == SpecAndMeta then obj.meta else ZERO_META;
    MetaDocMembers(base.uid, base.resourceVersion, m);
    var d := Diff(OldMeta(base, half), NewMeta(base, obj, half));
    assert UID !in OldMeta(base, half) && RV !in OldMeta(base, half);
    assert UID in d <==> base.uid != "";
    assert RV in d <==> base.resourceVersion != "";
  }

  /** A string that a patch sets is there after the merge. */
  lemma MergeSetsString(t: Fields, p: Fields, k: string, v: string)
    requires MemberOrNull(p, k) == Str(v)
    ensures MemberOrNull(MergeFields(t, p), k) == Str(v)
  {
  }

  /** Metadata after the patch: the precondition always lands in it. */
  lemma MergedMeta(stored: Resource, base: Resource, obj: Resource, half: Half)
    requires stored.Identified() && base.Identified() && obj.WellFormed()
    ensures var full := MetaDoc(stored.uid, stored.resourceVersion, stored.meta);
            var d := Diff(OldMeta(base, half), NewMeta(base, obj, half));
            var doc := MergeFields(FullDoc(stored), PatchFor(base, obj, half));
            && "metadata" in doc && doc["metadata"] == Obj(MergeFields(full, d))
            && MemberOrNull(MergeFields(full, d), UID) == Str(base.uid)
            && MemberOrNull(MergeFields(full, d), RV) == Str(base.resourceVersion)
  {
    PatchMembers(base, obj, half);
    PatchCarriesPreconditions(base, obj, half);
    var full := MetaDoc(stored.uid, stored.resourceVersion, stored.meta);
    var d := Diff(OldMeta(base, half), NewMeta(base, obj, half));
    MergeSetsString(full, d, UID, base.uid);
    MergeSetsString(full, d, RV, base.resourceVersion);
    assert FullDoc(stored)["metadata"] == Obj(full);
  }

  /** Applied to the version that was read, a patch is accepted, and it makes the changed half
      equal to the new one if and only if the new half brings in no new null. */
  lemma CommitRoundTrip(base: Resource, obj: Resource, half: Half, newRv: string)
    requires base.Identified() && obj.WellFormed()
    ensures var r := Patched(base, PatchFor(base, obj, half), half, newRv);
            && r.Some? && r.value.uid == base.uid && r.value.resourceVersion == newRv
            && (half == SpecAndMeta ==> r.value.status == base.status)
            && (half == Status ==> r.value.meta == base.meta && r.value.spec == base.spec)
            && (r.value == Intended(base, obj, half, newRv) <==> HalfWithoutNewNulls(base, obj, half))
  {
    var p := PatchFor(base, obj, half);
    var doc := MergeFields(FullDoc(base), p);
    MergedMeta(base, base, obj, half);
    PatchMembers(base, obj, half);
    if half == SpecAndMeta {
      ValueRoundTrip(FullDoc(base), p, "spec", base.spec, obj.spec);
      MetaRoundTrip(base, obj.meta);
      var merged := doc["metadata"].fields;
      MetaDocMembers(base.uid, base.resourceVersion, obj.meta);
      StrippedMeta(merged, base, obj.meta);
    } else {
      ValueRoundTrip(FullDoc(base), p, "status", base.status, obj.status);
    }
  }

  /** Metadata that carries the right identity is determined by the rest of it. */
  lemma StrippedMeta(merged: Fields, base: Resource, obj: Fields)
    requires UID !in obj && RV !in obj && base.uid != "" && base.resourceVersion != ""
    requires MemberOrNull(merged, UID) == Str(base.uid) && MemberOrNull(merged, RV) == Str(base.resourceVersion)
    ensures merged - {UID, RV} == obj <==> merged == MetaDoc(base.uid, base.resourceVersion, obj)
  {
    MetaDocMembers(base.uid, base.resourceVersion, obj);
    var doc := MetaDoc(base.uid, base.resourceVersion, obj);
    if merged - {UID, RV} == obj {
      forall k ensures k in merged <==> k in doc
               ensures k in merged ==> merged[k] == doc[k]
      {
        assert k != UID && k != RV ==> (k in merged <==> k in merged - {UID, RV});
        assert k in merged - {UID, RV} ==> merged[k] == (merged - {UID, RV})[k];
      }
      assert merged == doc;
    }
  }

  /** Applied to any other version, or to another object, a patch is refused. */
  lemma CommitElsewhereRefused(stored: Resource, base: Resource, obj: Resource, half: Half, newRv: string)
    requires stored.Identified() && base.Identified() && obj.WellFormed()
    requires stored.uid != base.uid || stored.resourceVersion != base.resourceVersion
    ensures Patched(stored, PatchFor(base, obj, half), half, newRv) == None
  {
    MergedMeta(stored, base, obj, half);
  }

  /** A patch is accepted exactly on the version it was computed from. */
  lemma PatchOutcome(stored: Resource, base: Resource, obj: Resource, half: Half, newRv: string)
    requires stored.Identified() && base.Identified() && obj.WellFormed()
    requires base.resourceVersion == stored.resourceVersion && base.uid == stored.uid ==> base == stored
    ensures var r := Patched(stored, PatchFor(base, obj, half), half, newRv);
            (r.Some? <==> base == stored) && (r.Some? ==> r.value.resourceVersion == newRv)
  {
    if base != stored {
      CommitElsewhereRefused(stored, base, obj, half, newRv);
    } else {
      CommitRoundTrip(base, obj, half, newRv);
    }
  }

  // ---------------------------------------------------------------- runs

  /** An accepted write: the version it was computed from, the new object and its half. */
  datatype Write = Write(base: Resource, obj: Resource, half: Half)

  /** A write that was computed from one version and accepted as the next. */
  ghost predicate Accepted(before: Resource, w: Write, after: Resource) {
    && w.obj.WellFormed() && w.base == before
    && Some(after) == Patched(before, PatchFor(before, w.obj, w.half), w.half, after.resourceVersion)
  }

  /** What the server keeps over a run: versions differ in their resourceVersion, belong to one
      object, and each one is the accepted patch of a write computed from its predecessor. */
  ghost predicate Chain(history: seq<Resource>, log: seq<Write>) {
    && |history| == |log| + 1
    && (forall i | 0 <= i < |history| :: history[i].Identified() && history[i].uid == history[0].uid)
    && (forall i, j | 0 <= i < j < |history| :: history[i].resourceVersion != history[j].resourceVersion)
    && (forall i | 0 <= i < |log| :: Accepted(history[i], log[i], history[i + 1]))
  }

  /** Interleaved committers are serialisable: in any run the versions are exactly what the
      accepted writes, one after the other, intended, and no version is written over twice. */
  lemma Serialisable(history: seq<Resource>, log: seq<Write>)
    requires Chain(history, log)
    requires forall i | 0 <= i < |log| :: HalfWithoutNewNulls(log[i].base, log[i].obj, log[i].half)
    ensures forall i | 0 <= i < |log| ::
              history[i + 1] == Intended(history[i], log[i].obj, log[i].half, history[i + 1].resourceVersion)
    ensures forall i, j | 0 <= i < j < |log| :: log[i].base != log[j].base
  {
    forall i | 0 <= i < |log|
      ensures history[i + 1] == Intended(history[i], log[i].obj, log[i].half, history[i + 1].resourceVersion)
    {
      CommitRoundTrip(history[i], log[i].obj, log[i].half, history[i + 1].resourceVersion);
    }
    forall i, j | 0 <= i < j < |log| ensures log[i].base != log[j].base {
      assert Accepted(history[i], log[i], history[i + 1]) && Accepted(history[j], log[j], history[j + 1]);
    }
  }

  lemma ChainExtends(history: seq<Resource>, log: seq<Write>, w: Write, newRv: string, longest: nat)
    requires Chain(history, log) && w.obj.WellFormed() && w.base == history[|log|]
    requires |newRv| > longest && forall i | 0 <= i < |history| :: |history[i].resourceVersion| <= longest
    ensures var r := Patched(w.base, PatchFor(w.base, w.obj, w.half), w.half, newRv);
            r.Some? && r.value.resourceVersion == newRv && Chain(history + [r.value], log + [w])
  {
    CommitRoundTrip(w.base, w.obj, w.half, newRv);
    var r := Patched(w.base, PatchFor(w.base, w.obj, w.half), w.half, newRv);
    ChainAppends(history, log, w, r.value);
  }

  lemma ChainAppends(history: seq<Resource>, log: seq<Write>, w: Write, next: Resource)
    requires Chain(history, log) && Accepted(history[|log|], w, next)
    requires next.Identified() && next.uid == history[0].uid
    requires forall i | 0 <= i < |history| :: history[i].resourceVersion != next.resourceVersion
    ensures Chain(history + [next], log + [w])
  {
    var h, l := history + [next], log + [w];
    forall i | 0 <= i < |l| ensures Accepted(h[i], l[i], h[i + 1]) {
      if i < |log| {
        assert h[i] == history[i] && h[i + 1] == history[i + 1] && l[i] == log[i];
      }
    }
  }

  datatype Network = Delivered | RequestLost | ReplyLost

  datatype Outcome = Unchanged | Done | Refused | Failed | Panicked

  class ApiServer {
    var stored: Resource
    var writes: nat
    ghost var history: seq<Resource>
    ghost var log: seq<Write>

    ghost predicate Valid() reads this {
      && Chain(history, log)
      && history[|log|] == stored
      && forall i | 0 <= i < |history| :: |history[i].resourceVersion| <= writes
    }

    constructor (uid: string, meta: Fields, spec: Json, status: Json)
      requires uid != "" && UID !in meta && RV !in meta
      ensures Valid() && stored == Resource(uid, stored.resourceVersion, meta, spec, status)
      ensures history == [stored] && log == []
    {
      stored := Resource(uid, "1", meta, spec, status);
      writes := 1;
      history := [Resource(uid, "1", meta, spec, status)];
      log := [];
    }

    /** The patch call. The ghost arguments name the write the patch was computed from. */
    method Patch(patch: Fields, half: Half, ghost base: Resource, ghost obj: Resource) returns (accepted: bool)
      requires Valid() && base.Identified() && obj.WellFormed() && patch == PatchFor(base, obj, half)
      requires base.resourceVersion == stored.resourceVersion && base.uid == stored.uid ==> base == stored
      modifies this
      ensures Valid()
      ensures accepted <==> base == old(stored)
      ensures accepted ==> history == old(history) + [stored] && log == old(log) + [Write(base, obj, half)]
      ensures !accepted ==> stored == old(stored) && history == old(history) && log == old(log)
    {
      var newRv := seq(writes + 1, _ => '1');
      PatchOutcome(stored, base, obj, half, newRv);
      var r := Patched(stored, patch, half, newRv);
      accepted := r.Some?;
      if accepted {
        ChainExtends(history, log, Write(base, obj, half), newRv, writes);
        Store(r.value, Write(base, obj, half));
      }
    }

    method Store(next: Resource, ghost w: Write)
      requires Valid() && Chain(history + [next], log + [w]) && |next.resourceVersion| <= writes + 1
      modifies this
      ensures Valid() && stored == next && history == old(history) + [next] && log == old(log) + [w]
    {
      stored, writes := next, writes + 1;
      history, log := history + [next], log + [w];
    }
  }

  /** The closure NewCommitter returns. base is the version read from the cache, obj the
      reconciled copy; the network may lose the request or the reply. */
  method Commit(server: ApiServer, base: Resource, obj: Resource, net: Network) returns (outcome: Outcome)
    requires server.Valid() && base in server.history && obj.WellFormed()
    modifies server
    ensures server.Valid()
    ensures outcome == Panicked <==> SpecOrMetaChanged(base, obj) && StatusChanged(base, obj)
    ensures outcome == Unchanged <==> base == obj
    ensures outcome in {Unchanged, Panicked, Refused} || net == RequestLost ==>
              server.stored == old(server.stored) && server.history == old(server.history) && server.log == old(server.log)
    ensures outcome == Done ==> net == Delivered && base == old(server.stored)
    ensures outcome == Refused <==> net == Delivered && outcome != Panicked && base != obj && base != old(server.stored)
    ensures outcome == Failed <==> net != Delivered && outcome != Panicked && base != obj
    ensures outcome == Done || (outcome == Failed && net == ReplyLost && base == old(server.stored)) ==>
              var half := if StatusChanged(base, obj) then Status else SpecAndMeta;
              server.history == old(server.history) + [server.stored] && server.log == old(server.log) + [Write(base, obj, half)]
    ensures outcome == Failed && base != old(server.stored) ==>
              server.stored == old(server.stored) && server.history == old(server.history) && server.log == old(server.log)
  {
    var specOrMetaChanged := SpecOrMetaChanged(base, obj);
    var statusChanged := StatusChanged(base, obj);
    if specOrMetaChanged && statusChanged {
      return Panicked;
    }
    if !specOrMetaChanged && !statusChanged {
      return Unchanged;
    }
    var half := if specOrMetaChanged then SpecAndMeta else Status;
    var oldForPatch := HalfDoc(base, half, "", "");
    var newForPatch := HalfDoc(obj, half, base.uid, base.resourceVersion);
    var patch := Diff(oldForPatch, newForPatch);
    if net == RequestLost {
      return Failed;
    }
    var accepted := server.Patch(patch, half, base, obj);
    if net == ReplyLost {
      return Failed;
    }
    outcome := if accepted then Done else Refused;
  }
}
