/** The projection and the schema check as the daemon runs them, loop by loop. */
module Projector {
  import opened Text
  import opened Wrappers
  import opened Projection

  /** Both fail, or both yield the same value. Which of several errors is reported depends
      on the order a table is read in. */
  ghost predicate Agrees<T>(r: Result<T>, spec: Result<T>) {
    r.Ok? == spec.Ok? && (r.Ok? ==> r == spec)
  }

  method CaseFoldedMapKeys(t: Types, keys: set<string>, canonical: string) returns (matches: seq<string>)
    ensures Sorted(matches) && Distinct(matches) && Elements(matches) == Matches(t, keys, canonical)
  {
    var found: seq<string> := [];
    var rest := keys;
    while rest != {}
      invariant rest <= keys && Distinct(found) && Elements(found) == Matches(t, keys - rest, canonical)
      decreases rest
    {
      var key :| key in rest;
      if t.fold(key) == t.fold(canonical) {
        var longer := found + [key];
        assert Elements(longer) == Elements(found) + {key};
        found := longer;
      }
      rest := rest - {key};
    }
    assert keys - rest == keys;
    matches := Sort(found);
    PermutationKeepsElements(found, matches);
  }

  /** The selected key, and the variants that lose to the canonical one. */
  method SelectCanonicalMapKey(matches: seq<string>, canonical: string)
      returns (selected: Option<string>, discarded: seq<string>)
    requires Distinct(matches)
    ensures selected == Select(Elements(matches), canonical)
    ensures Elements(discarded) == if canonical in matches then Elements(matches) - {canonical} else {}
  {
    DistinctSize(matches);
    discarded := [];
    if canonical in matches {
      for i := 0 to |matches|
        invariant forall x :: x in discarded <==> x in matches[..i] && x != canonical
      {
        assert matches[..i + 1] == matches[..i] + [matches[i]];
        if matches[i] != canonical {
          discarded := discarded + [matches[i]];
        }
      }
      assert matches[..|matches|] == matches;
      return Some(canonical), discarded;
    }
    if |matches| == 1 {
      assert Elements(matches) == {matches[0]};
      return Some(matches[0]), [];
    }
    selected := None;
  }

  lemma {:induction false} DistinctSize(s: seq<string>)
    requires Distinct(s)
    ensures |Elements(s)| == |s|
  {
    if s != [] {
      var front, last := s[..|s| - 1], s[|s| - 1];
      DistinctSize(front);
      assert s == front + [last];
      assert Elements(s) == Elements(front) + {last};
    }
  }

  method ResolveFailClosedBool(entries: map<string, Raw>, matches: seq<string>) returns (r: Result<Raw>)
    requires Elements(matches) <= entries.Keys
    ensures if matches == [] then r.Err? else Agrees(r, FailClosed(entries, Elements(matches)))
  {
    if |matches| == 0 {
      return Err("no configured aliases");
    }
    var value := true;
    for i := 0 to |matches|
      invariant forall j :: 0 <= j < i ==> entries[matches[j]].Bool?
      invariant value <==> forall j :: 0 <= j < i ==> entries[matches[j]].b
    {
      assert matches[i] in Elements(matches);
      if !entries[matches[i]].Bool? {
        return Err("must be a boolean");
      }
      if !entries[matches[i]].b {
        value := false;
      }
    }
    assert value <==> forall k :: k in Elements(matches) ==> entries[k].b;
    r := Ok(Bool(value));
  }

  method WalkField(t: Types, raw: Raw, keys: set<string>, f: Field, isAgent: bool)
      returns (r: Result<Option<(string, Raw)>>)
    requires raw.Tab? && keys <= raw.entries.Keys
    ensures Agrees(r, Contribution(t, raw, keys, f, isAgent))
    decreases raw, 0
  {
    if !f.exported {
      return Ok(None);
    }
    if f.anonymous {
      return Err("unsupported anonymous field");
    }
    match f.tag
    case Missing => r := Err("exported field is missing a toml tag");
    case Skip => r := Ok(None);
    case Named(name) =>
      var matches := CaseFoldedMapKeys(t, keys, name);
      DistinctSize(matches);
      if |matches| == 0 {
        return Ok(None);
      }
      assert matches[0] in Elements(matches);
      if isAgent && name == SKIP_PERMS {
        var value := ResolveFailClosedBool(raw.entries, matches);
        return if value.Err? then Err(value.reason) else Ok(Some((name, value.value)));
      }
      if Structural(f.schema) && |matches| > 1 {
        return Err("ambiguous structural aliases");
      }
      var selected, _ := SelectCanonicalMapKey(matches, name);
      if selected.None? {
        return Err("ambiguous aliases");
      }
      var child := WalkValue(t, raw.entries[selected.value], f.schema);
      r := if child.Err? then Err(child.reason) else Ok(Some((name, child.value)));
  }

  method WalkStructFields(t: Types, raw: Raw, keys: set<string>, fields: seq<Field>, isAgent: bool)
      returns (r: Result<map<string, Raw>>)
    requires raw.Tab? && keys <= raw.entries.Keys
    ensures Agrees(r, ProjectFields(t, raw, keys, fields, isAgent))
    decreases raw, 1
  {
    ghost var cs := Contributions(t, raw, keys, fields, isAgent);
    var projected: map<string, Raw> := map[];
    for i := 0 to |fields|
      invariant Collect(cs[..i]) == Ok(projected)
    {
      var c := WalkField(t, raw, keys, fields[i], isAgent);
      assert cs[..i + 1][..i] == cs[..i] && cs[..i + 1][i] == cs[i];
      if c.Err? {
        CollectFails(cs, i);
        return Err(c.reason);
      }
      if c.value.Some? {
        projected := projected[c.value.value.0 := c.value.value.1];
      }
    }
    assert cs[..|cs|] == cs;
    r := Ok(projected);
  }

  lemma {:induction false} CollectFails(cs: seq<Result<Option<(string, Raw)>>>, i: nat)
    requires i < |cs| && cs[i].Err?
    ensures Collect(cs).Err?
    decreases |cs|
  {
    if i < |cs| - 1 {
      CollectFails(cs[..|cs| - 1], i);
    }
  }

  method WalkMap(t: Types, raw: Raw, elem: Schema) returns (r: Result<map<string, Raw>>)
    requires raw.Tab?
    ensures r.Ok? <==> forall k :: k in raw.entries ==> Project(t, raw.entries[k], elem).Ok?
    ensures r.Ok? ==> r.value == ProjectEntries(t, raw, elem)
    decreases raw, 1
  {
    var projected: map<string, Raw> := map[];
    var rest := raw.entries.Keys;
    while rest != {}
      invariant rest <= raw.entries.Keys && projected.Keys == raw.entries.Keys - rest
      invariant forall k :: k in projected ==> Project(t, raw.entries[k], elem) == Ok(projected[k])
      decreases rest
    {
      var key :| key in rest;
      var child := WalkValue(t, raw.entries[key], elem);
      if child.Err? {
        return Err(child.reason);
      }
      projected := projected[key := child.value];
      rest := rest - {key};
    }
    assert projected == ProjectEntries(t, raw, elem);
    r := Ok(projected);
  }

  /** Splits the table into its shared keys and its option values. */
  method SplitCustom(t: Types, entries: map<string, Raw>)
      returns (shared: set<string>, options: map<string, Raw>, ok: bool)
    ensures ok <==> forall k :: k in OwnOptions(t, entries) ==> IsScalar(OwnOptions(t, entries)[k])
    ensures ok ==> shared == SharedKeysOf(t, entries) && options == OwnOptions(t, entries)
  {
    shared, options, ok := {}, map[], true;
    var rest := entries.Keys;
    while rest != {}
      invariant rest <= entries.Keys
      invariant shared == set k | k in entries.Keys - rest && IsShared(t, k)
      invariant options == map k | k in entries.Keys - rest && !IsShared(t, k) :: entries[k]
      invariant forall k :: k in options ==> IsScalar(options[k])
      decreases rest
    {
      var key :| key in rest;
      if IsShared(t, key) {
        shared := shared + {key};
      } else if IsScalar(entries[key]) {
        options := options[key := entries[key]];
      } else {
        assert key in OwnOptions(t, entries);
        return {}, map[], false;
      }
      rest := rest - {key};
    }
    assert entries.Keys - rest == entries.Keys;
  }

  method WalkCustomAgent(t: Types, raw: Raw) returns (r: Result<Raw>)
    requires raw.Tab? && CLI_AGENT in t.structs
    ensures Agrees(r, ProjectCustom(t, raw))
    decreases raw, 2
  {
    var shared, options, ok := SplitCustom(t, raw.entries);
    if !ok {
      return Err("a custom agent's option must be a scalar");
    }
    var fields := WalkStructFields(t, raw, shared, t.structs[CLI_AGENT], true);
    if fields.Err? {
      return Err(fields.reason);
    }
    r := MergeOptions(fields.value, options);
  }

  /** The own options and the explicit ones become one table, if there are any. */
  method MergeOptions(projected: map<string, Raw>, own: map<string, Raw>) returns (r: Result<Raw>)
    ensures r.Ok? <==> ("options" in projected ==>
                        projected["options"].Tab? && projected["options"].entries.Keys !! own.Keys)
    ensures r.Ok? ==>
              var all := own + (if "options" in projected then projected["options"].entries else map[]);
              r.value == Tab(if all != map[] then projected["options" := Tab(all)] else projected - {"options"})
  {
    var options := own;
    if "options" in projected {
      if !projected["options"].Tab? {
        return Err("options must be a table");
      }
      var explicit := projected["options"].entries;
      if exists k :: k in explicit && k in options {
        return Err("option is set twice");
      }
      options := options + explicit;
    } else {
      assert options + map[] == options;
    }
    r := Ok(Tab(if |options| > 0 then projected["options" := Tab(options)] else projected - {"options"}));
  }

  /** Elements are compared with the first, and arrays inside them are checked in turn. */
  method ValidateHomogeneousArrays(raw: Raw) returns (ok: bool)
    ensures ok <==> Homogeneous(raw)
    decreases raw, 1
  {
    match raw
    case Arr(_, elems) =>
      for i := 0 to |elems|
        invariant forall j :: 0 <= j < i ==> ShapeOf(elems[j]) == ShapeOf(elems[0]) && Homogeneous(elems[j])
      {
        if ShapeOf(elems[i]) != ShapeOf(elems[0]) {
          return false;
        }
        var inner := ValidateHomogeneousArrays(elems[i]);
        if !inner {
          return false;
        }
      }
      ok := true;
    case Tab(_) =>
      ok := ValidateHomogeneousEntries(raw);
    case _ =>
      ok := true;
  }

  method ValidateHomogeneousEntries(raw: Raw) returns (ok: bool)
    requires raw.Tab?
    ensures ok <==> Homogeneous(raw)
    decreases raw, 0
  {
    var entries := raw.entries;
    var rest := entries.Keys;
    while rest != {}
      invariant rest <= entries.Keys
      invariant forall k :: k in entries && k !in rest ==> Homogeneous(entries[k])
      decreases rest
    {
      var k :| k in rest;
      ok := ValidateHomogeneousArrays(entries[k]);
      if !ok {
        return;
      }
      rest := rest - {k};
    }
    ok := true;
  }

  method WalkValue(t: Types, raw: Raw, schema: Schema) returns (r: Result<Raw>)
    ensures Agrees(r, Project(t, raw, schema))
    decreases raw, 3
  {
    if raw.Arr? {
      var homogeneous := ValidateHomogeneousArrays(raw);
      if !homogeneous {
        return Err("mixed element types");
      }
    }
    match Indirect(schema)
    case Struct(name) =>
      if !raw.Tab? {
        return Ok(raw);
      }
      if name !in t.structs {
        return Err("no such type");
      }
      if name == CLI_AGENT && IsCustomAgent(t, raw.entries) {
        r := WalkCustomAgent(t, raw);
      } else {
        var out := WalkStructFields(t, raw, raw.entries.Keys, t.structs[name], name == CLI_AGENT);
        r := if out.Err? then Err(out.reason) else Ok(Tab(out.value));
      }
    case MapOf(stringKeys, elem) =>
      if !stringKeys {
        return Err("must use string keys");
      }
      if !raw.Tab? {
        return Ok(raw);
      }
      var out := WalkMap(t, raw, elem);
      r := if out.Err? then Err(out.reason) else Ok(Tab(out.value));
    case Interface => r := Err("unsupported interface type");
    case _ => r := Ok(raw);
  }

  /** What the startup check decides about the fields looked at so far. */
  ghost predicate FieldsAccepted(t: Types, fields: seq<Field>, visiting: set<string>, n: nat)
    requires n <= |fields|
  {
    && (forall i :: 0 <= i < n && fields[i].exported ==> !fields[i].anonymous && !fields[i].tag.Missing?)
    && (forall i, j :: 0 <= i < j < n && fields[i].Included() && fields[j].Included() ==>
          t.fold(fields[i].tag.name) != t.fold(fields[j].tag.name))
    && (forall i :: 0 <= i < n && fields[i].Included() ==> Accepts(t, fields[i].schema, visiting))
  }

  lemma AcceptedByIndex(t: Types, fields: seq<Field>, visiting: set<string>)
    ensures FieldsAccepted(t, fields, visiting, |fields|) <==>
      && (forall f :: f in fields && f.exported ==> !f.anonymous && !f.tag.Missing?)
      && (forall i, j :: 0 <= i < j < |fields| && fields[i].Included() && fields[j].Included() ==>
            t.fold(fields[i].tag.name) != t.fold(fields[j].tag.name))
      && (forall f :: f in fields && f.Included() ==> Accepts(t, f.schema, visiting))
  {
  }

  /** The startup check, with the types it is inside of; one is entered before its fields
      and left after them, however that ends. */
  class SchemaCheck {
    var visiting: set<string>

    constructor ()
      ensures visiting == {}
    {
      visiting := {};
    }

    method ValidateSchema(t: Types, schema: Schema) returns (ok: bool)
      modifies this
      ensures ok == Accepts(t, schema, old(visiting)) && visiting == old(visiting)
      decreases t.structs.Keys - visiting, 0, schema
    {
      match schema
      case Pointer(to) => ok := ValidateSchema(t, to);
      case Own => ok := true;
      case Basic => ok := true;
      case Interface => ok := false;
      case MapOf(stringKeys, elem) =>
        if !stringKeys {
          return false;
        }
        ok := ValidateSchema(t, elem);
      case ListOf(elem) => ok := Indirect(elem).Own? || Indirect(elem).Basic?;
      case Struct(name) =>
        if name !in t.structs || name in visiting {
          return false;
        }
        visiting := visiting + {name};
        ok := ValidateFields(t, t.structs[name]);
        AcceptedByIndex(t, t.structs[name], visiting);
        visiting := visiting - {name};
    }

    method ValidateFields(t: Types, fields: seq<Field>) returns (ok: bool)
      modifies this
      ensures ok == FieldsAccepted(t, fields, old(visiting), |fields|) && visiting == old(visiting)
      decreases t.structs.Keys - visiting, 1
    {
      var names: seq<string> := [];
      for i := 0 to |fields|
        invariant visiting == old(visiting) && FieldsAccepted(t, fields, visiting, i)
        invariant forall x :: x in names <==> exists j :: 0 <= j < i && fields[j].Included() && fields[j].tag.name == x
      {
        var f := fields[i];
        if !f.exported {
          continue;
        }
        if f.anonymous || f.tag.Missing? {
          return false;
        }
        if f.tag.Skip? {
          continue;
        }
        if exists x :: x in names && t.fold(x) == t.fold(f.tag.name) {
          return false;
        }
        names := names + [f.tag.name];
        var good := ValidateSchema(t, f.schema);
        if !good {
          return false;
        }
      }
      ok := true;
    }
  }
}
