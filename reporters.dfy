/** The registry of reporter plugins (kodi_addon_checker/reporter.py).

    Python keeps the registry in the class attribute `ReportManager.reporters`,
    a dict from name to `[instance, enabled]`; here it is one object whose
    fields are that dict's key order and its entries. */
module Reporters {

  /** A reporter instance, identified by the plugin class it was made from
      and the registration that created it. What its `report` method does
      with a record is outside this model. */
  datatype Reporter = Reporter(plugin: string, serial: nat)

  /** The list `[reporter_clazz(), enabled]` stored under a name. */
  datatype Entry = Entry(instance: Reporter, enabled: bool)

  /** The instances of the enabled entries, in the order of `names`. */
  function EnabledIn(names: seq<string>, entries: map<string, Entry>): (r: seq<Reporter>)
    requires forall n :: n in names ==> n in entries
    ensures |r| <= |names|
    ensures forall x :: x in r <==> exists n :: n in names && entries[n].enabled && entries[n].instance == x
  {
    if names == [] then []
    else
      var rest := EnabledIn(names[1..], entries);
      assert forall n :: n in names <==> n == names[0] || n in names[1..];
      if entries[names[0]].enabled then [entries[names[0]].instance] + rest else rest
  }

  /** No entry enabled: no reporter is returned. */
  lemma {:induction false} NoneEnabled(names: seq<string>, entries: map<string, Entry>)
    requires forall n :: n in names ==> n in entries
    requires forall n :: n in names ==> !entries[n].enabled
    ensures EnabledIn(names, entries) == []
  {
    if names != [] {
      assert names[0] in names;
      assert forall n :: n in names[1..] ==> n in names;
      NoneEnabled(names[1..], entries);
    }
  }

  /** Every entry enabled: every instance is returned, in key order. */
  lemma {:induction false} AllEnabled(names: seq<string>, entries: map<string, Entry>)
    requires forall n :: n in names ==> n in entries
    requires forall n :: n in names ==> entries[n].enabled
    ensures |EnabledIn(names, entries)| == |names|
    ensures forall i :: 0 <= i < |names| ==> EnabledIn(names, entries)[i] == entries[names[i]].instance
  {
    if names != [] {
      assert names[0] in names;
      assert forall n :: n in names[1..] ==> n in names;
      AllEnabled(names[1..], entries);
    }
  }

  class ReportManager {
    /** The dict's keys in insertion order. */
    var order: seq<string>
    var entries: map<string, Entry>
    /** How many reporter instances have been created. */
    var created: nat

    ghost predicate Valid()
      reads this
    {
      && (forall i, j :: 0 <= i < j < |order| ==> order[i] != order[j])
      && (forall n :: n in order <==> n in entries)
    }

    /** The empty class-level dict `reporters = {}`. */
    constructor ()
      ensures Valid()
      ensures order == [] && entries == map[] && created == 0
    {
      order := [];
      entries := map[];
      created := 0;
    }

    /** `register(reporter_clazz, name, enabled)`: a fresh instance and the
        flag are stored under `name`; a name already present keeps its place
        in the key order and loses its former instance and flag. */
    method Register(plugin: string, name: string, enabled: bool)
      requires Valid()
      modifies this
      ensures Valid()
      ensures entries == old(entries)[name := Entry(Reporter(plugin, old(created)), enabled)]
      ensures order == if name in old(entries) then old(order) else old(order) + [name]
      ensures created == old(created) + 1
    {
      if name !in entries {
        order := order + [name];
      }
      entries := entries[name := Entry(Reporter(plugin, created), enabled)];
      created := created + 1;
    }

    /** `enable(names)`: every registered reporter is enabled exactly when
        its name is listed; nothing is added or removed, and unknown names
        are ignored. */
    method Enable(names: seq<string>)
      requires Valid()
      modifies this
      ensures Valid()
      ensures order == old(order) && created == old(created)
      ensures entries == EnabledAs(old(entries), names)
    {
      var i := 0;
      while i < |order|
        invariant 0 <= i <= |order|
        invariant order == old(order) && created == old(created)
        invariant entries.Keys == old(entries).Keys
        invariant forall k :: 0 <= k < i ==> entries[order[k]] == Entry(old(entries)[order[k]].instance, order[k] in names)
        invariant forall k :: i <= k < |order| ==> entries[order[k]] == old(entries)[order[k]]
      {
        var name := order[i];
        var entry := entries[name];
        entries := entries[name := entry.(enabled := name in names)];
        i := i + 1;
      }
    }

    /** `getEnabledReporters()`: the enabled instances, in registration order. */
    function EnabledReporters(): (r: seq<Reporter>)
      requires Valid()
      reads this
      ensures forall x :: x in r <==> exists n :: n in entries && entries[n].enabled && entries[n].instance == x
    {
      EnabledIn(order, entries)
    }
  }

  /** The registry after `enable(names)`: the same instances, each flag
      set to whether its name is listed. */
  function EnabledAs(entries: map<string, Entry>, names: seq<string>): (r: map<string, Entry>)
    ensures r.Keys == entries.Keys
    ensures forall n :: n in r ==> r[n].instance == entries[n].instance && (r[n].enabled <==> n in names)
  {
    map n | n in entries :: Entry(entries[n].instance, n in names)
  }

  /** `enable([])` disables every reporter (the way a configuration file
      switches all of them off). */
  lemma EnableEmpty(order: seq<string>, entries: map<string, Entry>)
    requires forall n :: n in order ==> n in entries
    ensures EnabledIn(order, EnabledAs(entries, [])) == []
  {
    NoneEnabled(order, EnabledAs(entries, []));
  }

  /** Enabling every registered name returns every instance, in
      registration order. */
  lemma EnableEvery(order: seq<string>, entries: map<string, Entry>, names: seq<string>)
    requires forall n :: n in order ==> n in entries && n in names
    ensures |EnabledIn(order, EnabledAs(entries, names))| == |order|
    ensures forall i :: 0 <= i < |order| ==> EnabledIn(order, EnabledAs(entries, names))[i] == entries[order[i]].instance
  {
    AllEnabled(order, EnabledAs(entries, names));
  }

  /** Entries under names outside the list do not affect the result. */
  lemma {:induction false} EnabledInUnrelated(names: seq<string>, entries: map<string, Entry>, n: string, e: Entry)
    requires forall m :: m in names ==> m in entries
    requires n !in names
    ensures EnabledIn(names, entries[n := e]) == EnabledIn(names, entries)
  {
    if names != [] {
      assert names[0] in names;
      assert forall m :: m in names[1..] ==> m in names;
      EnabledInUnrelated(names[1..], entries, n, e);
    }
  }

  lemma {:induction false} EnabledInAppend(names: seq<string>, n: string, entries: map<string, Entry>)
    requires forall m :: m in names ==> m in entries
    requires n in entries
    ensures EnabledIn(names + [n], entries)
         == EnabledIn(names, entries) + (if entries[n].enabled then [entries[n].instance] else [])
  {
    if names != [] {
      assert (names + [n])[1..] == names[1..] + [n];
      assert names[0] in names;
      assert forall m :: m in names[1..] ==> m in names;
      EnabledInAppend(names[1..], n, entries);
    } else {
      assert names + [n] == [n];
    }
  }

  /** Registering a new enabled name appends its instance to the enabled
      reporters; a new disabled one leaves them as they were. */
  lemma RegisterNew(order: seq<string>, entries: map<string, Entry>, name: string, made: Reporter, enabled: bool)
    requires forall m :: m in order ==> m in entries
    requires name !in entries
    ensures EnabledIn(order + [name], entries[name := Entry(made, enabled)])
         == EnabledIn(order, entries) + (if enabled then [made] else [])
  {
    assert name !in order;
    EnabledInAppend(order, name, entries[name := Entry(made, enabled)]);
    EnabledInUnrelated(order, entries, name, Entry(made, enabled));
  }
}
