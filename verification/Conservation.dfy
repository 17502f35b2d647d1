/** What the projection keeps: every value of a known key, as it was, at any depth. */
module Conservation {
  import opened Wrappers
  import opened Projection

  /** The table is a custom agent's: some variant of its binary key is in it. */
  predicate IsCustom(t: Types, name: string, entries: map<string, Raw>) {
    name == CLI_AGENT && exists k :: k in entries && t.fold(k) == t.fold("binary")
  }

  predicate Shared(t: Types, key: string) {
    exists k :: k in t.shared && t.fold(k) == t.fold(key)
  }

  /** The keys of the table that stand for the field called k. In a custom agent's table
      only shared keys stand for fields. */
  function Variants(t: Types, name: string, entries: map<string, Raw>, k: string): set<string> {
    set x | x in entries && t.fold(x) == t.fold(k) && (IsCustom(t, name, entries) ==> Shared(t, x))
  }

  /** Of the variants the canonical key speaks, and else the only one there is. */
  predicate Speaks(variants: set<string>, k: string, from: string) {
    from in variants && (if k in variants then from == k else variants == {from})
  }

  predicate IsSwitch(name: string, f: Field) {
    name == CLI_AGENT && f.tag == Named(SKIP_PERMS)
  }

  predicate HoldsOptions(t: Types, name: string, entries: map<string, Raw>, f: Field) {
    IsCustom(t, name, entries) && f.tag == Named("options")
  }

  /** The value comes out as it went in: the same under a plain type, and in a table each
      value under its key, or under the canonical name of the key. */
  ghost predicate Conserves(t: Types, raw: Raw, out: Raw, schema: Schema)
    decreases raw, 2
  {
    if !raw.Tab? then out == raw
    else
      match Indirect(schema)
      case MapOf(_, elem) =>
        && out.Tab? && out.entries.Keys == raw.entries.Keys
        && forall k :: k in raw.entries ==> Conserves(t, raw.entries[k], out.entries[k], elem)
      case Struct(name) => out.Tab? && name in t.structs && TableConserved(t, name, raw, out.entries)
      case _ => out == raw
  }

  /** Every field is, and there is nothing but fields. */
  ghost predicate TableConserved(t: Types, name: string, raw: Raw, out: map<string, Raw>)
    requires raw.Tab? && name in t.structs
    decreases raw, 1
  {
    && NamesFields(t.structs[name], out)
    && forall f :: f in t.structs[name] && f.Included() ==> FieldConserved(t, name, raw, out, f)
  }

  ghost predicate NamesFields(fields: seq<Field>, out: map<string, Raw>) {
    forall k :: k in out ==> exists f :: f in fields && f.Included() && f.tag.name == k
  }

  ghost predicate FieldConserved(t: Types, name: string, raw: Raw, out: map<string, Raw>, f: Field)
    requires raw.Tab? && f.Included()
    decreases raw, 0
  {
    var k := f.tag.name;
    var variants := Variants(t, name, raw.entries, k);
    if HoldsOptions(t, name, raw.entries, f) then OptionsConserved(t, name, raw.entries, out)
    else
      && (k in out <==> variants != {})
      && (k in out ==>
            if IsSwitch(name, f) then out[k] == Bool(forall x :: x in variants ==> raw.entries[x] == Bool(true))
            else exists from :: Speaks(variants, k, from) && Conserves(t, raw.entries[from], out[k], f.schema))
  }

  /** The options are the values next to the shared keys and the entries of the options
      table, if there is one; no table stands for none. */
  ghost predicate OptionsConserved(t: Types, name: string, entries: map<string, Raw>, out: map<string, Raw>) {
    var own := map k | k in entries && !Shared(t, k) :: entries[k];
    exists explicit ::
      && ExplicitAre(t, name, entries, explicit) && explicit.Keys !! own.Keys
      && (if own + explicit == map[] then "options" !in out
          else "options" in out && out["options"] == Tab(own + explicit))
  }

  ghost predicate ExplicitAre(t: Types, name: string, entries: map<string, Raw>, explicit: map<string, Raw>) {
    var variants := Variants(t, name, entries, "options");
    if variants == {} then explicit == map[]
    else exists from :: Speaks(variants, "options", from) && entries[from] == Tab(explicit)
  }

  /** The keys the fields of the table look at. */
  function Looked(t: Types, name: string, entries: map<string, Raw>): set<string> {
    if name == CLI_AGENT && IsCustomAgent(t, entries) then SharedKeysOf(t, entries) else entries.Keys
  }

  lemma CustomAlike(t: Types, name: string, entries: map<string, Raw>)
    ensures IsCustom(t, name, entries) <==> name == CLI_AGENT && IsCustomAgent(t, entries)
  {
    if IsCustom(t, name, entries) {
      var k :| k in entries && t.fold(k) == t.fold("binary");
      assert k in Matches(t, entries.Keys, "binary");
    }
    if IsCustomAgent(t, entries) {
      var k :| k in Matches(t, entries.Keys, "binary");
      assert k in entries && t.fold(k) == t.fold("binary");
    }
  }

  lemma VariantsAreMatches(t: Types, name: string, entries: map<string, Raw>, k: string)
    ensures Variants(t, name, entries, k) == Matches(t, Looked(t, name, entries), k)
  {
    CustomAlike(t, name, entries);
    forall x ensures Shared(t, x) <==> IsShared(t, x) {
    }
  }

  /** Each field of a projected table, but for a custom agent's options. */
  lemma {:induction false} FieldIsConserved(t: Types, raw: Raw, name: string, f: Field, out: map<string, Raw>)
    requires AgentShape(t) && raw.Tab? && name in t.structs && GoodFields(t, t.structs[name])
    requires f in t.structs[name] && f.Included() && !HoldsOptions(t, name, raw.entries, f)
    requires ProjectFields(t, raw, Looked(t, name, raw.entries), t.structs[name], name == CLI_AGENT).Ok?
    requires var all := ProjectFields(t, raw, Looked(t, name, raw.entries), t.structs[name], name == CLI_AGENT).value;
      if f.tag.name in all then f.tag.name in out && out[f.tag.name] == all[f.tag.name] else f.tag.name !in out
    ensures FieldConserved(t, name, raw, out, f)
    decreases raw, 0, 0
  {
    var fields, keys, isAgent, k := t.structs[name], Looked(t, name, raw.entries), name == CLI_AGENT, f.tag.name;
    VariantsAreMatches(t, name, raw.entries, k);
    if Matches(t, keys, k) != {} {
      MatchedFieldStays(t, raw, keys, fields, isAgent, f);
    }
    if k in out {
      var g, from := KeyOrigin(t, raw, keys, fields, isAgent, k);
      SameNameSameField(t, fields, f, g);
      if IsSwitch(name, f) {
        FailClosedMeaning(raw.entries, Matches(t, keys, k));
      } else {
        ProjectionConserves(t, raw.entries[from], f.schema);
        assert Speaks(Matches(t, keys, k), k, from);
      }
    }
  }

  /** Whatever the projection accepts it conserves. */
  lemma {:induction false} ProjectionConserves(t: Types, raw: Raw, schema: Schema)
    requires AgentShape(t) && Accepts(t, schema, {}) && Project(t, raw, schema).Ok?
    ensures Conserves(t, raw, Project(t, raw, schema).value, schema)
    decreases raw, 3
  {
    AcceptsBehindPointers(t, schema, {});
    var out := Project(t, raw, schema).value;
    match Indirect(schema)
    case MapOf(_, elem) =>
      if raw.Tab? {
        forall k | k in raw.entries ensures Conserves(t, raw.entries[k], out.entries[k], elem) {
          ProjectionConserves(t, raw.entries[k], elem);
        }
      }
    case Struct(name) =>
      if raw.Tab? {
        StructConserves(t, raw, name);
      }
    case _ =>
  }

  lemma {:induction false} StructConserves(t: Types, raw: Raw, name: string)
    requires AgentShape(t) && Accepts(t, Struct(name), {}) && raw.Tab? && Project(t, raw, Struct(name)).Ok?
    ensures Conserves(t, raw, Project(t, raw, Struct(name)).value, Struct(name))
    decreases raw, 2
  {
    AcceptedFieldsAreGood(t, name);
    CustomAlike(t, name, raw.entries);
    var out := Project(t, raw, Struct(name)).value;
    if IsCustom(t, name, raw.entries) {
      CustomConserves(t, raw);
      ConservedTable(t, name, raw, out.entries);
    } else {
      assert Looked(t, name, raw.entries) == raw.entries.Keys;
      forall f | f in t.structs[name] && f.Included() ensures FieldConserved(t, name, raw, out.entries, f) {
        FieldIsConserved(t, raw, name, f, out.entries);
      }
      KeysAreCanonical(t, raw, raw.entries.Keys, t.structs[name], name == CLI_AGENT);
    }
  }

  /** What a custom agent's table comes to: its shared part, and all its options if any. */
  ghost predicate CustomOut(t: Types, raw: Raw, shared: map<string, Raw>, explicit: map<string, Raw>,
                            out: map<string, Raw>)
    requires raw.Tab? && CLI_AGENT in t.structs
  {
    && ProjectFields(t, raw, SharedKeysOf(t, raw.entries), t.structs[CLI_AGENT], true) == Ok(shared)
    && (if "options" in shared then shared["options"] == Tab(explicit) else explicit == map[])
    && explicit.Keys !! OwnOptions(t, raw.entries).Keys
    && var all := OwnOptions(t, raw.entries) + explicit;
    out == if all != map[] then shared["options" := Tab(all)] else shared - {"options"}
  }

  lemma ConservedTable(t: Types, name: string, raw: Raw, out: map<string, Raw>)
    requires raw.Tab? && name in t.structs && TableConserved(t, name, raw, out)
    ensures Conserves(t, raw, Tab(out), Struct(name))
  {
  }

  lemma {:induction false} CustomConserves(t: Types, raw: Raw)
    requires AgentShape(t) && raw.Tab? && CLI_AGENT in t.structs && GoodFields(t, t.structs[CLI_AGENT])
    requires IsCustom(t, CLI_AGENT, raw.entries) && IsCustomAgent(t, raw.entries) && ProjectCustom(t, raw).Ok?
    ensures ProjectCustom(t, raw).value.Tab? && TableConserved(t, CLI_AGENT, raw, ProjectCustom(t, raw).value.entries)
    decreases raw, 1, 1
  {
    var shared, explicit := CustomShape(t, raw);
    var all := OwnOptions(t, raw.entries) + explicit;
    var out := if all != map[] then shared["options" := Tab(all)] else shared - {"options"};
    assert CustomOut(t, raw, shared, explicit, out);
    CustomFieldsConserve(t, raw, shared, explicit, out);
    assert ProjectCustom(t, raw).value == Tab(out);
  }

  lemma {:induction false} CustomFieldsConserve(t: Types, raw: Raw, shared: map<string, Raw>,
                                                explicit: map<string, Raw>, out: map<string, Raw>)
    requires AgentShape(t) && raw.Tab? && CLI_AGENT in t.structs && GoodFields(t, t.structs[CLI_AGENT])
    requires IsCustom(t, CLI_AGENT, raw.entries) && IsCustomAgent(t, raw.entries)
    requires CustomOut(t, raw, shared, explicit, out)
    ensures TableConserved(t, CLI_AGENT, raw, out)
    decreases raw, 1, 0
  {
    KeysAreCanonical(t, raw, SharedKeysOf(t, raw.entries), t.structs[CLI_AGENT], true);
    CustomKeysAreNamed(t, t.structs[CLI_AGENT], shared, out);
    forall f | f in t.structs[CLI_AGENT] && f.Included() ensures FieldConserved(t, CLI_AGENT, raw, out, f) {
      CustomFieldConserves(t, raw, shared, explicit, out, f);
    }
  }

  lemma {:induction false} CustomFieldConserves(t: Types, raw: Raw, shared: map<string, Raw>,
                                                explicit: map<string, Raw>, out: map<string, Raw>, f: Field)
    requires AgentShape(t) && raw.Tab? && CLI_AGENT in t.structs && GoodFields(t, t.structs[CLI_AGENT])
    requires IsCustom(t, CLI_AGENT, raw.entries) && IsCustomAgent(t, raw.entries)
    requires CustomOut(t, raw, shared, explicit, out) && f in t.structs[CLI_AGENT] && f.Included()
    ensures FieldConserved(t, CLI_AGENT, raw, out, f)
    decreases raw, 0, 1
  {
    if f.tag.name == "options" {
      ExplicitIsKept(t, raw, shared, explicit, f);
      OptionsAreConserved(t, raw, shared, explicit, out);
    } else {
      FieldIsConserved(t, raw, CLI_AGENT, f, out);
    }
  }

  lemma CustomKeysAreNamed(t: Types, fields: seq<Field>, shared: map<string, Raw>, out: map<string, Raw>)
    requires AgentFields(t, fields) && AllCanonical(fields, shared.Keys)
    requires forall k :: k in out ==> k in shared || k == "options"
    ensures NamesFields(fields, out)
  {
    forall k | k in out ensures exists f :: f in fields && f.Included() && f.tag.name == k {
      if k in shared {
        var i :| 0 <= i < |fields| && fields[i].Included() && fields[i].tag.name == k;
      }
    }
  }

  lemma OptionsAreConserved(t: Types, raw: Raw, shared: map<string, Raw>, explicit: map<string, Raw>,
                            out: map<string, Raw>)
    requires raw.Tab? && CLI_AGENT in t.structs && CustomOut(t, raw, shared, explicit, out)
    requires ExplicitAre(t, CLI_AGENT, raw.entries, explicit)
    ensures OptionsConserved(t, CLI_AGENT, raw.entries, out)
  {
    forall x ensures Shared(t, x) <==> IsShared(t, x) {
    }
    var own := map k | k in raw.entries && !Shared(t, k) :: raw.entries[k];
    assert own == OwnOptions(t, raw.entries);
  }

  lemma ExplicitIsKept(t: Types, raw: Raw, shared: map<string, Raw>, explicit: map<string, Raw>, f: Field)
    requires AgentShape(t) && raw.Tab? && CLI_AGENT in t.structs && GoodFields(t, t.structs[CLI_AGENT])
    requires IsCustomAgent(t, raw.entries)
    requires ProjectFields(t, raw, SharedKeysOf(t, raw.entries), t.structs[CLI_AGENT], true) == Ok(shared)
    requires if "options" in shared then shared["options"] == Tab(explicit) else explicit == map[]
    requires f in t.structs[CLI_AGENT] && f.Included() && f.tag.name == "options"
    ensures ExplicitAre(t, CLI_AGENT, raw.entries, explicit)
  {
    VariantsAreMatches(t, CLI_AGENT, raw.entries, "options");
    var fields, keys := t.structs[CLI_AGENT], SharedKeysOf(t, raw.entries);
    if Matches(t, keys, "options") != {} {
      MatchedFieldStays(t, raw, keys, fields, true, f);
      var from := TableComesThrough(t, raw, shared, f);
    } else if "options" in shared {
      var _, from := KeyOrigin(t, raw, keys, fields, true, "options");
      assert from in Matches(t, keys, "options");
    }
  }

  /** The options decode themselves, so what speaks for them comes through as it is. */
  lemma TableComesThrough(t: Types, raw: Raw, shared: map<string, Raw>, f: Field) returns (from: string)
    requires AgentShape(t) && raw.Tab? && CLI_AGENT in t.structs && GoodFields(t, t.structs[CLI_AGENT])
    requires ProjectFields(t, raw, SharedKeysOf(t, raw.entries), t.structs[CLI_AGENT], true) == Ok(shared)
    requires "options" in shared && f in t.structs[CLI_AGENT] && f.Included() && f.tag.name == "options"
    ensures Speaks(Matches(t, SharedKeysOf(t, raw.entries), "options"), "options", from)
    ensures raw.entries[from] == shared["options"]
  {
    var fields, keys := t.structs[CLI_AGENT], SharedKeysOf(t, raw.entries);
    var g;
    g, from := KeyOrigin(t, raw, keys, fields, true, "options");
    var own :| own in fields && own.Included() && own.tag.name == "options" && own.schema == Own;
    SameNameSameField(t, fields, g, own);
  }
}
