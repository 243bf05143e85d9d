/** An add-on and its declared dependencies, read from its `addon.xml`
    element (kodi_addon_checker/addons/Addon.py,
    kodi_addon_checker/addons/AddonDependency.py). */
module Addons {

  import opened Outcome
  import opened Versions

  /** The attributes of an XML element. */
  type Attributes = map<string, string>

  /** `element.get(name)` */
  function Get(attrs: Attributes, name: string): Option<string>
  {
    if name in attrs then Some(attrs[name]) else None
  }

  /** The parts of an `<addon>` element the model reads: its attributes and
      the attributes of its `./requires/import` children, in document
      order. */
  datatype AddonXml = AddonXml(attributes: Attributes, imports: seq<Attributes>)

  /** The raw `optional` attribute, or the default `False` when it is absent. */
  datatype Optional = NotGiven | Given(text: string)

  /** Python truthiness of the `optional` field: any non-empty string is
      true, "false" included. */
  predicate IsOptional(o: Optional) { o.Given? && o.text != "" }

  datatype Dependency = Dependency(id: Option<string>, version: Option<AddonVersion>, optional: Optional)

  /** `AddonDependency(import_xml)`: the `addon` attribute as given, an
      `AddonVersion` of the `version` attribute when there is one (its
      parse may raise), and the raw `optional` attribute. */
  function NewDependency(attrs: Attributes): (r: Result<Dependency>)
    ensures r.Err? <==> "version" in attrs && NewAddonVersion(attrs["version"]).Err?
    ensures r.Err? ==> r == Err(NewAddonVersion(attrs["version"]).error)
    ensures r.Ok? ==> r.value.id == Get(attrs, "addon")
    ensures r.Ok? ==> (r.value.version.None? <==> "version" !in attrs)
    ensures r.Ok? && "version" in attrs ==> NewAddonVersion(attrs["version"]) == Ok(r.value.version.value)
    ensures r.Ok? ==> r.value.optional == if "optional" in attrs then Given(attrs["optional"]) else NotGiven
  {
    var version :-
      if "version" in attrs then
        match NewAddonVersion(attrs["version"])
        case Ok(v) => Ok(Some(v))
        case Err(e) => Err(e)
      else Ok(None);
    Ok(Dependency(Get(attrs, "addon"), version, if "optional" in attrs then Given(attrs["optional"]) else NotGiven))
  }

  /** An import with no `version` attribute always yields a dependency. */
  lemma NoVersionNeverFails(attrs: Attributes)
    requires "version" !in attrs
    ensures NewDependency(attrs).Ok? && NewDependency(attrs).value.version.None?
  {
  }

  /** An add-on: `id` and `version` are the raw attribute strings, possibly
      absent; `version` is not parsed. */
  datatype Addon = Addon(id: Option<string>, version: Option<string>, dependencies: seq<Dependency>)

  /** `Addon(addon_xml)`: one dependency per `requires/import` element, in
      document order. The first import whose dependency cannot be built
      makes the constructor raise its exception. */
  method NewAddon(xml: AddonXml) returns (r: Result<Addon>)
    ensures r.Ok? <==> forall i :: 0 <= i < |xml.imports| ==> NewDependency(xml.imports[i]).Ok?
    ensures r.Ok? ==> r.value.id == Get(xml.attributes, "id") && r.value.version == Get(xml.attributes, "version")
    ensures r.Ok? ==> |r.value.dependencies| == |xml.imports|
    ensures r.Ok? ==> forall i :: 0 <= i < |xml.imports| ==> NewDependency(xml.imports[i]) == Ok(r.value.dependencies[i])
    ensures r.Err? ==> exists i :: 0 <= i < |xml.imports| && NewDependency(xml.imports[i]) == Err(r.error)
                                  && forall j :: 0 <= j < i ==> NewDependency(xml.imports[j]).Ok?
  {
    var dependencies: seq<Dependency> := [];
    var i := 0;
    while i < |xml.imports|
      invariant 0 <= i <= |xml.imports| && |dependencies| == i
      invariant forall k :: 0 <= k < i ==> NewDependency(xml.imports[k]) == Ok(dependencies[k])
    {
      var d := NewDependency(xml.imports[i]);
      if d.Err? {
        return Err(d.error);
      }
      dependencies := dependencies + [d.value];
      i := i + 1;
    }
    r := Ok(Addon(Get(xml.attributes, "id"), Get(xml.attributes, "version"), dependencies));
  }

  /** `a == b`: equal ids and equal raw version strings. */
  predicate Same(a: Addon, b: Addon)
  {
    a.id == b.id && a.version == b.version
  }

  /** `==` on add-ons is an equivalence that ignores the dependencies, and
      compares version text, not version order: "1.0" and "1.0.0" differ. */
  lemma SameIsEquivalence(a: Addon, b: Addon, c: Addon)
    ensures Same(a, a)
    ensures Same(a, b) == Same(b, a)
    ensures Same(a, b) && Same(b, c) ==> Same(a, c)
    ensures Same(a, a.(dependencies := []))
    ensures !Same(a.(version := Some("1.0")), a.(version := Some("1.0.0")))
  {
  }

  /** `dependsOn(addonId)`: the search for a dependency with that id. */
  function DependsOn(a: Addon, addonId: Option<string>, from: nat := 0): (r: bool)
    requires from <= |a.dependencies|
    ensures r <==> exists i :: from <= i < |a.dependencies| && a.dependencies[i].id == addonId
    decreases |a.dependencies| - from
  {
    if from == |a.dependencies| then false
    else if a.dependencies[from].id == addonId then true
    else DependsOn(a, addonId, from + 1)
  }

  /** An add-on without dependencies depends on nothing. */
  lemma NoDependencies(a: Addon, addonId: Option<string>)
    requires a.dependencies == []
    ensures !DependsOn(a, addonId)
  {
  }
}
