/**
 The plugin registry.

 A plugin's own code is a parameter: whether `get_metadata` and `initialize` succeed, and what
 `execute` makes of a context, with None standing for an exception. `Indexed` is what the tables
 of the registry always agree on, and every method keeps it.
 */
module Plugins {
  import opened Prelude

  datatype Metadata = Metadata(name: string, pluginType: string, enabled: bool)

  /** The names of one type, in registration order. */
  function OfType(order: seq<string>, metadata: map<string, Metadata>, pluginType: string): seq<string>
    requires forall n :: n in order ==> n in metadata
  {
    if order == [] then []
    else if metadata[order[0]].pluginType == pluginType then [order[0]] + OfType(order[1..], metadata, pluginType)
    else OfType(order[1..], metadata, pluginType)
  }

  lemma {:induction false} OfTypeSnoc(order: seq<string>, metadata: map<string, Metadata>, name: string, pluginType: string)
    requires name in metadata && forall n :: n in order ==> n in metadata
    ensures OfType(order + [name], metadata, pluginType) ==
            OfType(order, metadata, pluginType) + (if metadata[name].pluginType == pluginType then [name] else [])
  {
    if order == [] {
      assert order + [name] == [name];
    } else {
      assert (order + [name])[1..] == order[1..] + [name];
      OfTypeSnoc(order[1..], metadata, name, pluginType);
    }
  }

  lemma {:induction false} OfTypeFrame(order: seq<string>, m: map<string, Metadata>, m': map<string, Metadata>, pluginType: string)
    requires forall n :: n in order ==> n in m && n in m' && m[n].pluginType == m'[n].pluginType
    ensures OfType(order, m, pluginType) == OfType(order, m', pluginType)
  {
    if order != [] {
      OfTypeFrame(order[1..], m, m', pluginType);
    }
  }

  lemma {:induction false} OfTypeMembers(order: seq<string>, metadata: map<string, Metadata>, pluginType: string)
    requires forall n :: n in order ==> n in metadata
    ensures forall n :: n in OfType(order, metadata, pluginType) <==> n in order && metadata[n].pluginType == pluginType
  {
    if order != [] {
      assert order == [order[0]] + order[1..];
      OfTypeMembers(order[1..], metadata, pluginType);
    }
  }

  /** Removing a name from its own type's list keeps every list the subsequence of its type. */
  lemma {:induction false} OfTypeWithout(order: seq<string>, metadata: map<string, Metadata>, name: string, pluginType: string)
    requires Distinct(order) && forall n :: n in order ==> n in metadata
    requires name in order
    ensures forall n :: n in Without(order, name) ==> n in metadata
    ensures OfType(Without(order, name), metadata, pluginType) ==
              if metadata[name].pluginType == pluginType then Without(OfType(order, metadata, pluginType), name)
              else OfType(order, metadata, pluginType)
  {
    WithoutMembers(order, name);
    if order[0] != name {
      assert order == [order[0]] + order[1..];
      OfTypeWithout(order[1..], metadata, name, pluginType);
    }
  }

  function Listed(byType: map<string, seq<string>>, pluginType: string): seq<string> {
    if pluginType in byType then byType[pluginType] else []
  }

  /** The registry's four tables agree: every type's list is the subsequence of the order with that type. */
  ghost predicate Indexed(order: seq<string>, metadata: map<string, Metadata>, byType: map<string, seq<string>>) {
    && Distinct(order)
    && (forall n :: n in order <==> n in metadata)
    && (forall n :: n in metadata ==> metadata[n].name == n)
    && (forall t :: Listed(byType, t) == OfType(order, metadata, t))
  }

  lemma IndexedAdd(order: seq<string>, metadata: map<string, Metadata>, byType: map<string, seq<string>>, meta: Metadata)
    requires Indexed(order, metadata, byType) && meta.name !in metadata
    ensures Indexed(order + [meta.name], metadata[meta.name := meta],
                    byType[meta.pluginType := Listed(byType, meta.pluginType) + [meta.name]])
  {
    var metadata' := metadata[meta.name := meta];
    var byType' := byType[meta.pluginType := Listed(byType, meta.pluginType) + [meta.name]];
    forall n ensures n in order + [meta.name] <==> n in metadata' {
    }
    forall t ensures Listed(byType', t) == OfType(order + [meta.name], metadata', t) {
      OfTypeSnoc(order, metadata', meta.name, t);
      OfTypeFrame(order, metadata, metadata', t);
    }
  }

  lemma IndexedRemove(order: seq<string>, metadata: map<string, Metadata>, byType: map<string, seq<string>>, name: string)
    requires Indexed(order, metadata, byType) && name in metadata
    ensures metadata[name].pluginType in byType
    ensures var kind := metadata[name].pluginType;
            Indexed(Without(order, name), metadata - {name}, byType[kind := Without(byType[kind], name)])
  {
    var kind := metadata[name].pluginType;
    OfTypeMembers(order, metadata, kind);
    assert name in Listed(byType, kind);
    WithoutMembers(order, name);
    var byType' := byType[kind := Without(byType[kind], name)];
    forall t ensures Listed(byType', t) == OfType(Without(order, name), metadata - {name}, t) {
      OfTypeWithout(order, metadata, name, t);
      OfTypeFrame(Without(order, name), metadata, metadata - {name}, t);
    }
  }

  lemma IndexedSwitch(order: seq<string>, metadata: map<string, Metadata>, byType: map<string, seq<string>>, name: string, enabled: bool)
    requires Indexed(order, metadata, byType) && name in metadata
    ensures Indexed(order, metadata[name := metadata[name].(enabled := enabled)], byType)
  {
    var metadata' := metadata[name := metadata[name].(enabled := enabled)];
    forall t ensures Listed(byType, t) == OfType(order, metadata', t) {
      OfTypeFrame(order, metadata, metadata', t);
    }
  }

  /** The pipeline: enabled plugins in order, each failing one leaving the context alone. */
  function Fold<C>(names: seq<string>, metadata: map<string, Metadata>, run: (string, C) -> Option<C>, context: C): C
    requires forall n :: n in names ==> n in metadata
  {
    if names == [] then context
    else
      var before, last := Fold(names[..|names| - 1], metadata, run, context), names[|names| - 1];
      if !metadata[last].enabled then before
      else
        match run(last, before)
        case Some(after) => after
        case None => before
  }

  /** The contexts between the plugins: one that is off or fails hands on what it was given. */
  lemma {:induction false} PipelineSteps<C>(names: seq<string>, metadata: map<string, Metadata>,
                                            run: (string, C) -> Option<C>, context: C) returns (contexts: seq<C>)
    requires forall n :: n in names ==> n in metadata
    ensures |contexts| == |names| + 1 && contexts[0] == context
    ensures contexts[|names|] == Fold(names, metadata, run, context)
    ensures forall i :: 0 <= i < |names| ==>
              contexts[i + 1] == if metadata[names[i]].enabled && run(names[i], contexts[i]).Some?
                                 then run(names[i], contexts[i]).value else contexts[i]
  {
    if names == [] {
      contexts := [context];
    } else {
      var front := PipelineSteps(names[..|names| - 1], metadata, run, context);
      contexts := front + [Fold(names, metadata, run, context)];
    }
  }

  class PluginManager {
    var metadata: map<string, Metadata>
    var byType: map<string, seq<string>>
    var order: seq<string>
    var plugins: set<string>  // the keys of `_plugins`

    ghost predicate Valid()
      reads this
    {
      plugins == metadata.Keys && Indexed(order, metadata, byType)
    }

    constructor ()
      ensures Valid() && order == []
    {
      metadata, byType, order, plugins := map[], map[], [], {};
    }

    /** `loads` is false when reading the metadata or initializing raises. */
    method Register(meta: Metadata, loads: bool) returns (ok: bool)
      requires Valid()
      modifies this
      ensures Valid()
      ensures ok <==> loads && meta.name !in old(metadata)
      ensures !ok ==> unchanged(this)
      ensures ok ==> order == old(order) + [meta.name] && metadata == old(metadata)[meta.name := meta]
    {
      if meta.name in plugins || !loads {
        return false;
      }
      IndexedAdd(order, metadata, byType, meta);
      plugins := plugins + {meta.name};
      metadata := metadata[meta.name := meta];
      byType := byType[meta.pluginType := (if meta.pluginType in byType then byType[meta.pluginType] else []) + [meta.name]];
      order := order + [meta.name];
      return true;
    }

    method Unregister(name: string) returns (found: bool)
      requires Valid()
      modifies this
      ensures Valid()
      ensures found <==> name in old(metadata)
      ensures !found ==> unchanged(this)
      ensures found ==> order == Without(old(order), name) && metadata == old(metadata) - {name}
    {
      if name !in plugins {
        return false;
      }
      var meta := metadata[name];
      IndexedRemove(order, metadata, byType, name);
      plugins, metadata := plugins - {name}, metadata - {name};
      byType := byType[meta.pluginType := Without(byType[meta.pluginType], name)];
      order := Without(order, name);
      return true;
    }

    method SetEnabled(name: string, enabled: bool) returns (found: bool)
      requires Valid()
      modifies `metadata
      ensures Valid()
      ensures found <==> name in old(metadata)
      ensures metadata == if found then old(metadata)[name := old(metadata)[name].(enabled := enabled)] else old(metadata)
    {
      if name !in metadata {
        return false;
      }
      IndexedSwitch(order, metadata, byType, name, enabled);
      metadata := metadata[name := metadata[name].(enabled := enabled)];
      return true;
    }

    method ExecutePlugins<C>(pluginType: string, context: C, run: (string, C) -> Option<C>) returns (result: C)
      requires Valid()
      ensures (forall n :: n in OfType(order, metadata, pluginType) ==> n in metadata)
      ensures result == Fold(OfType(order, metadata, pluginType), metadata, run, context)
    {
      OfTypeMembers(order, metadata, pluginType);
      var names := if pluginType in byType then byType[pluginType] else [];
      assert names == Listed(byType, pluginType) == OfType(order, metadata, pluginType);
      result := context;
      for i := 0 to |names|
        invariant result == Fold(names[..i], metadata, run, context)
      {
        assert names[..i + 1][..i] == names[..i];
        assert names[i] in names;
        if metadata[names[i]].enabled {
          match run(names[i], result)
          case Some(after) => result := after;
          case None =>
        }
      }
      assert names[..|names|] == names;
    }
  }

  // ----- Disabling is leaving out -----

  function Enabled(names: seq<string>, metadata: map<string, Metadata>): seq<string>
    requires forall n :: n in names ==> n in metadata
  {
    if names == [] then []
    else Enabled(names[..|names| - 1], metadata) + (if metadata[names[|names| - 1]].enabled then [names[|names| - 1]] else [])
  }

  /** Running a type is running its enabled plugins only. */
  lemma {:induction false} FoldOfEnabled<C>(names: seq<string>, metadata: map<string, Metadata>, run: (string, C) -> Option<C>, context: C)
    requires forall n :: n in names ==> n in metadata
    ensures forall n :: n in Enabled(names, metadata) <==> n in names && metadata[n].enabled
    ensures Fold(names, metadata, run, context) == Fold(Enabled(names, metadata), metadata, run, context)
  {
    if names != [] {
      var front, last := names[..|names| - 1], names[|names| - 1];
      assert names == front + [last];
      FoldOfEnabled(front, metadata, run, context);
      if metadata[last].enabled {
        var enabled := Enabled(front, metadata);
        assert Enabled(names, metadata) == enabled + [last];
        assert (enabled + [last])[..|enabled|] == enabled;
      } else {
        assert Enabled(names, metadata) == Enabled(front, metadata);
      }
    }
  }
}
