/** Export templates and the names derived from them
    (exporttemplate/index.go, appclusterbinding_reconcile.go: resolveTemplate and
    apiServiceBindingName, which also names exports). */
module Templates {
  import opened JsonDoc
  import Names

  /** The name of a service binding, an export or a custom resource definition. */
  datatype Name = Name(text: string)

  const NO_NAME := Name("")

  datatype GroupResource = GroupResource(group: string, resource: string)

  datatype Template = Template(name: string, selector: GroupResource, claims: Json)

  /** The template index, and the references whose lookup fails for want of the list. */
  datatype Catalogue = Catalogue(templates: seq<Template>, unreachable: set<GroupResource>)

  function FirstFor(templates: seq<Template>, ref: GroupResource): (t: Option<Template>)
    ensures t.Some? ==> t.value.selector == ref && t.value in templates
  {
    if templates == [] then None
    else if templates[0].selector == ref then Some(templates[0])
    else FirstFor(templates[1..], ref)
  }

  /** TemplateFor: None is any of its errors, an unknown reference included. */
  function TemplateFor(c: Catalogue, ref: GroupResource): (t: Option<Template>)
    ensures t.Some? ==> t.value.selector == ref
  {
    if ref in c.unreachable then None else FirstFor(c.templates, ref)
  }

  /** A reference is found exactly if the list can be read and some template selects it, and the
      first such template is the answer. */
  lemma {:induction false} FirstMatchWins(c: Catalogue, ref: GroupResource)
    ensures TemplateFor(c, ref).Some? <==> ref !in c.unreachable && exists i | 0 <= i < |c.templates| :: c.templates[i].selector == ref
    ensures TemplateFor(c, ref).Some? ==> exists i | 0 <= i < |c.templates| ::
              c.templates[i] == TemplateFor(c, ref).value && forall j | 0 <= j < i :: c.templates[j].selector != ref
    decreases |c.templates|
  {
    if c.templates != [] && c.templates[0].selector != ref && ref !in c.unreachable {
      var rest := Catalogue(c.templates[1..], c.unreachable);
      FirstMatchWins(rest, ref);
      assert forall i | 0 < i < |c.templates| :: c.templates[i] == rest.templates[i - 1];
      if TemplateFor(c, ref).Some? {
        var i :| 0 <= i < |rest.templates| && rest.templates[i] == TemplateFor(rest, ref).value
                 && forall j | 0 <= j < i :: rest.templates[j].selector != ref;
        assert c.templates[i + 1] == TemplateFor(c, ref).value;
      }
    }
  }

  function Trimmed(ref: GroupResource): GroupResource {
    GroupResource(Names.TrimSpace(ref.group), Names.TrimSpace(ref.resource))
  }

  datatype Resolution = Skip | Unresolved | Resolved(template: Template)

  function Resolve(c: Catalogue, apiExport: GroupResource): Resolution {
    var ref := Trimmed(apiExport);
    if ref.resource == "" then Skip
    else match TemplateFor(c, ref)
      case None => Unresolved
      case Some(t) => Resolved(t)
  }

  /** apiServiceBindingName and apiServiceExportName; empty when the template selects nothing. */
  function ExportName(t: Template): Name {
    var ref := Trimmed(t.selector);
    if ref.resource == "" then NO_NAME
    else if ref.group == "" then Name(ref.resource)
    else Name(ref.resource + "." + ref.group)
  }

  /** A resolved template selects exactly the trimmed reference, so its name is never empty. */
  lemma ResolvedName(c: Catalogue, apiExport: GroupResource)
    ensures var r := Resolve(c, apiExport);
            r.Resolved? ==> r.template.selector == Trimmed(apiExport) == Trimmed(r.template.selector)
                            && ExportName(r.template) != NO_NAME
  {
    Names.TrimIsIdempotent(apiExport.group, Names.IsSpace);
    Names.TrimIsIdempotent(apiExport.resource, Names.IsSpace);
  }

  /** The templates that a list of API exports asks for, by export name; later ones win. */
  function Desired(c: Catalogue, apiExports: seq<GroupResource>): map<Name, Template> {
    if apiExports == [] then map[]
    else
      var rest := Desired(c, apiExports[..|apiExports| - 1]);
      var r := Resolve(c, apiExports[|apiExports| - 1]);
      if r.Resolved? && ExportName(r.template) != NO_NAME then rest[ExportName(r.template) := r.template] else rest
  }

  /** A reference, spaces around its parts apart, that names a resource but is selected by no
      template, or that cannot be looked up. */
  predicate Missing(c: Catalogue, apiExport: GroupResource) {
    var group, resource := Names.TrimSpace(apiExport.group), Names.TrimSpace(apiExport.resource);
    && resource != ""
    && (GroupResource(group, resource) in c.unreachable
        || forall t <- c.templates :: t.selector.group != group || t.selector.resource != resource)
  }

  predicate NoneMissing(c: Catalogue, apiExports: seq<GroupResource>) {
    forall i | 0 <= i < |apiExports| :: !Missing(c, apiExports[i])
  }

  /** Exactly when a reference is skipped, cannot be resolved, or resolves to a template, told from
      the catalogue. */
  lemma ResolvesExactly(c: Catalogue, apiExport: GroupResource)
    ensures var r := Resolve(c, apiExport);
            var resource := Names.TrimSpace(apiExport.resource);
            && (r == Skip <==> resource == "")
            && (r == Unresolved <==> Missing(c, apiExport))
            && (r.Resolved? <==> resource != "" && !Missing(c, apiExport))
            && (r.Resolved? ==>
                  && r.template in c.templates
                  && r.template.selector == GroupResource(Names.TrimSpace(apiExport.group), resource))
  {
    FirstMatchWins(c, Trimmed(apiExport));
  }

  /** The name that an API export stands for. */
  function NameOf(apiExport: GroupResource): Name {
    var group, resource := Names.TrimSpace(apiExport.group), Names.TrimSpace(apiExport.resource);
    Name(if group == "" then resource else resource + "." + group)
  }

  /** Some API export that names a resource and is not missing stands for the name. */
  predicate Wanted(c: Catalogue, apiExports: seq<GroupResource>, n: Name) {
    exists e <- apiExports :: Names.TrimSpace(e.resource) != "" && !Missing(c, e) && NameOf(e) == n
  }

  /** Exactly the names that are wanted are desired. */
  lemma DesiredIffWanted(c: Catalogue, apiExports: seq<GroupResource>, n: Name)
    ensures n in Desired(c, apiExports) <==> Wanted(c, apiExports, n)
  {
    if n in Desired(c, apiExports) {
      var i := DesiredMember(c, apiExports, n);
      ResolvesExactly(c, apiExports[i]);
      ResolvedName(c, apiExports[i]);
      assert NameOf(apiExports[i]) == n;
    }
    if Wanted(c, apiExports, n) {
      var i :| 0 <= i < |apiExports| && Names.TrimSpace(apiExports[i].resource) != "" && !Missing(c, apiExports[i]) && NameOf(apiExports[i]) == n;
      ResolvesExactly(c, apiExports[i]);
      ResolvedName(c, apiExports[i]);
      DesiredHas(c, apiExports, i);
    }
  }

  /** Every desired entry is named after a template that some API export resolves to. */
  lemma {:induction false} DesiredMember(c: Catalogue, apiExports: seq<GroupResource>, n: Name) returns (i: nat)
    requires n in Desired(c, apiExports)
    ensures i < |apiExports| && Resolve(c, apiExports[i]) == Resolved(Desired(c, apiExports)[n])
    ensures n != NO_NAME && ExportName(Desired(c, apiExports)[n]) == n
    decreases apiExports
  {
    i := |apiExports| - 1;
    ResolvedName(c, apiExports[i]);
    var r := Resolve(c, apiExports[i]);
    if !(r.Resolved? && ExportName(r.template) == n) {
      i := DesiredMember(c, apiExports[..|apiExports| - 1], n);
    }
  }

  /** Every API export that resolves is desired under its name. */
  lemma {:induction false} DesiredHas(c: Catalogue, apiExports: seq<GroupResource>, i: nat)
    requires i < |apiExports| && Resolve(c, apiExports[i]).Resolved?
    ensures ExportName(Resolve(c, apiExports[i]).template) in Desired(c, apiExports)
    decreases apiExports
  {
    ResolvedName(c, apiExports[i]);
    if i < |apiExports| - 1 {
      DesiredHas(c, apiExports[..|apiExports| - 1], i);
    }
  }

  lemma OneMoreResolves(c: Catalogue, apiExports: seq<GroupResource>, i: nat)
    requires i < |apiExports|
    ensures NoneMissing(c, apiExports[..i + 1]) <==> NoneMissing(c, apiExports[..i]) && Resolve(c, apiExports[i]) != Unresolved
  {
    ResolvesExactly(c, apiExports[i]);
    var p, q := apiExports[..i + 1], apiExports[..i];
    assert forall k | 0 <= k < i :: p[k] == q[k];
    assert p[i] == apiExports[i];
  }

  /** One more API export at the end of a prefix. */
  lemma PrefixStep(c: Catalogue, apiExports: seq<GroupResource>, i: nat)
    requires i < |apiExports|
    ensures var r := Resolve(c, apiExports[i]);
            && (NoneMissing(c, apiExports[..i + 1]) <==> NoneMissing(c, apiExports[..i]) && r != Unresolved)
            && Desired(c, apiExports[..i + 1])
               == (if r.Resolved? then Desired(c, apiExports[..i])[ExportName(r.template) := r.template]
                   else Desired(c, apiExports[..i]))
            && (r.Resolved? ==> ExportName(r.template) != NO_NAME)
  {
    OneMoreResolves(c, apiExports, i);
    ResolvedName(c, apiExports[i]);
    var p := apiExports[..i + 1];
    assert p[..|p| - 1] == apiExports[..i] && p[|p| - 1] == apiExports[i];
  }
}
