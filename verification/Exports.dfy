/** Service exports and the configuration of the controllers that write them. */
module Exports {
  import opened JsonDoc
  import opened Templates

  const SOURCE_SPEC_HASH := "klutch.anynines.com/source-spec-hash"

  datatype Condition = Unset | Holds | Fails(reason: string, about: Name)

  /** An APIServiceExport: annotations, the copied CRD spec, the rest of the spec and the
      ProviderInSync condition. */
  datatype Export = Export(annotations: map<string, string>, crdSpec: Json, informerScope: string,
                           isolation: string, claims: Json, inSync: Condition)

  /** CRDToServiceExport, APIServiceExportCRDSpecHash and the scope of a converted CRD are kept
      as fixed functions; the other two are constants of the backend. */
  datatype Config = Config(convert: Json -> Option<Json>, hash: Json -> string, clusterScoped: Json -> bool,
                           informerScope: string, isolation: string)

  /** Reading a missing annotation gives the empty string. */
  function HashAnnotation(e: Export): string {
    if SOURCE_SPEC_HASH in e.annotations then e.annotations[SOURCE_SPEC_HASH] else ""
  }

  /** The hash annotation speaks the truth about the stored CRD spec. */
  predicate HashAgrees(cfg: Config, e: Export) {
    HashAnnotation(e) == cfg.hash(e.crdSpec)
  }

  ghost predicate CollisionFree(cfg: Config) {
    forall a, b :: cfg.hash(a) == cfg.hash(b) ==> a == b
  }
}
