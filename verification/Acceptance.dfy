/** Which configurations the projection accepts. */
module Acceptance {
  import opened Wrappers
  import opened Projection
  import opened Conservation

  /** Arrays are of one type, each known key has one meaning, and what it means is acceptable. */
  ghost predicate Acceptable(t: Types, raw: Raw, schema: Schema)
    decreases raw, 1
  {
    if !raw.Tab? then raw.Arr? ==> Homogeneous(raw)
    else
      match Indirect(schema)
      case MapOf(_, elem) => forall k :: k in raw.entries ==> Acceptable(t, raw.entries[k], elem)
      case Struct(name) =>
        && name in t.structs
        && (forall f :: f in t.structs[name] && f.Included() ==> FieldAcceptable(t, name, raw, f))
        && (IsCustom(t, name, raw.entries) ==> OptionsAcceptable(t, raw.entries))
      case _ => true
  }

  /** Every variant of the permission switch is a switch; of another field one variant
      speaks, and a field that holds a table has only one. */
  ghost predicate FieldAcceptable(t: Types, name: string, raw: Raw, f: Field)
    requires raw.Tab? && f.Included()
    decreases raw, 0
  {
    var variants := Variants(t, name, raw.entries, f.tag.name);
    variants != {} ==>
      if IsSwitch(name, f) then forall x :: x in variants ==> raw.entries[x].Bool?
      else
        && (Structural(f.schema) ==> |variants| == 1)
        && exists from :: Speaks(variants, f.tag.name, from) && Acceptable(t, raw.entries[from], f.schema)
  }

  /** What stands next to the shared keys is plain, the options are a table, and nothing is
      given twice. */
  ghost predicate OptionsAcceptable(t: Types, entries: map<string, Raw>) {
    var variants := Variants(t, CLI_AGENT, entries, "options");
    && OwnAreScalars(t, entries)
    && (variants != {} ==> exists from :: Speaks(variants, "options", from) && FreshTable(t, entries, entries[from]))
  }

  ghost predicate FreshTable(t: Types, entries: map<string, Raw>, options: Raw) {
    options.Tab? && forall k :: k in options.entries && k in entries ==> Shared(t, k)
  }

  lemma SelectedSpeaks(matches: set<string>, k: string, from: string)
    ensures Speaks(matches, k, from) <==> Select(matches, k) == Some(from)
  {
    if k !in matches && |matches| == 1 {
      OnlyElement(matches, Select(matches, k).value);
    }
  }

  lemma {:induction false} CollectsExactly(cs: seq<Result<Option<(string, Raw)>>>)
    ensures Collect(cs).Ok? <==> forall i :: 0 <= i < |cs| ==> cs[i].Ok?
    decreases |cs|
  {
    if cs != [] {
      CollectsExactly(cs[..|cs| - 1]);
    }
  }

  lemma {:induction false} FieldAcceptedExactly(t: Types, raw: Raw, name: string, f: Field)
    requires AgentShape(t) && raw.Tab? && name in t.structs && GoodFields(t, t.structs[name])
    requires f in t.structs[name] && f.Included()
    ensures Contribution(t, raw, Looked(t, name, raw.entries), f, name == CLI_AGENT).Ok? <==>
            FieldAcceptable(t, name, raw, f)
    decreases raw, 0
  {
    var matches := Matches(t, Looked(t, name, raw.entries), f.tag.name);
    VariantsAreMatches(t, name, raw.entries, f.tag.name);
    if matches != {} {
      if IsSwitch(name, f) {
        FailClosedMeaning(raw.entries, matches);
      } else {
        SelectedIsAccepted(t, raw, matches, f);
        SizeOne(matches);
      }
    }
  }

  lemma SizeOne(s: set<string>)
    requires s != {}
    ensures |s| > 1 <==> |s| != 1
  {
  }

  lemma {:induction false} SelectedIsAccepted(t: Types, raw: Raw, matches: set<string>, f: Field)
    requires AgentShape(t) && raw.Tab? && matches <= raw.entries.Keys && f.Included() && Accepts(t, f.schema, {})
    ensures (exists from :: Speaks(matches, f.tag.name, from) && Acceptable(t, raw.entries[from], f.schema)) <==>
            && Select(matches, f.tag.name).Some?
            && Project(t, raw.entries[Select(matches, f.tag.name).value], f.schema).Ok?
    decreases raw, 0, 0
  {
    forall from ensures Speaks(matches, f.tag.name, from) <==> Select(matches, f.tag.name) == Some(from) {
      SelectedSpeaks(matches, f.tag.name, from);
    }
    if Select(matches, f.tag.name).Some? {
      var from := Select(matches, f.tag.name).value;
      assert Speaks(matches, f.tag.name, from);
      AcceptedExactly(t, raw.entries[from], f.schema);
    }
  }

  /** The fields are accepted exactly if each is; what is no field never fails. */
  lemma {:induction false} FieldsAcceptedExactly(t: Types, raw: Raw, name: string)
    requires AgentShape(t) && raw.Tab? && name in t.structs && GoodFields(t, t.structs[name])
    ensures ProjectFields(t, raw, Looked(t, name, raw.entries), t.structs[name], name == CLI_AGENT).Ok? <==>
            forall f :: f in t.structs[name] && f.Included() ==> FieldAcceptable(t, name, raw, f)
    decreases raw, 1
  {
    var fields, keys, isAgent := t.structs[name], Looked(t, name, raw.entries), name == CLI_AGENT;
    var cs := Contributions(t, raw, keys, fields, isAgent);
    CollectsExactly(cs);
    forall i | 0 <= i < |fields|
      ensures cs[i].Ok? <==> (fields[i].Included() ==> FieldAcceptable(t, name, raw, fields[i])) {
      if fields[i].Included() {
        FieldAcceptedExactly(t, raw, name, fields[i]);
      }
    }
  }

  /** The projection accepts exactly that. */
  lemma {:induction false} AcceptedExactly(t: Types, raw: Raw, schema: Schema)
    requires AgentShape(t) && Accepts(t, schema, {})
    ensures Project(t, raw, schema).Ok? <==> Acceptable(t, raw, schema)
    decreases raw, 3
  {
    AcceptsBehindPointers(t, schema, {});
    match Indirect(schema)
    case MapOf(_, elem) =>
      if raw.Tab? {
        forall k | k in raw.entries ensures Project(t, raw.entries[k], elem).Ok? <==>
            Acceptable(t, raw.entries[k], elem) {
          AcceptedExactly(t, raw.entries[k], elem);
        }
      }
    case Struct(name) =>
      if raw.Tab? {
        AcceptedFieldsAreGood(t, name);
        CustomAlike(t, name, raw.entries);
        FieldsAcceptedExactly(t, raw, name);
        if IsCustom(t, name, raw.entries) {
          CustomAcceptedExactly(t, raw);
        }
      }
    case _ =>
  }

  ghost predicate OwnAreScalars(t: Types, entries: map<string, Raw>) {
    forall k :: k in entries && !Shared(t, k) ==> IsScalar(entries[k])
  }

  /** What the gathering of a custom agent's options makes of the fields. */
  lemma CustomOutcome(t: Types, raw: Raw)
    requires raw.Tab? && CLI_AGENT in t.structs
    ensures var fields := ProjectFields(t, raw, SharedKeysOf(t, raw.entries), t.structs[CLI_AGENT], true);
      ProjectCustom(t, raw).Ok? <==>
      && fields.Ok? && OwnAreScalars(t, raw.entries)
      && ("options" in fields.value ==> FreshTable(t, raw.entries, fields.value["options"]))
  {
    OwnKeysAre(t, raw.entries);
  }

  /** Of a custom agent's table, given that its fields are accepted. */
  lemma CustomAcceptedExactly(t: Types, raw: Raw)
    requires AgentShape(t) && raw.Tab? && CLI_AGENT in t.structs && GoodFields(t, t.structs[CLI_AGENT])
    requires IsCustomAgent(t, raw.entries)
    ensures ProjectCustom(t, raw).Ok? <==>
      && ProjectFields(t, raw, SharedKeysOf(t, raw.entries), t.structs[CLI_AGENT], true).Ok?
      && OptionsAcceptable(t, raw.entries)
  {
    var fields := ProjectFields(t, raw, SharedKeysOf(t, raw.entries), t.structs[CLI_AGENT], true);
    CustomOutcome(t, raw);
    if fields.Ok? {
      OptionsAcceptedExactly(t, raw, fields.value);
    }
  }

  lemma OwnKeysAre(t: Types, entries: map<string, Raw>)
    ensures forall k :: k in OwnOptions(t, entries) <==> k in entries && !Shared(t, k)
    ensures forall k :: k in OwnOptions(t, entries) ==> OwnOptions(t, entries)[k] == entries[k]
  {
    forall x ensures Shared(t, x) <==> IsShared(t, x) {
    }
  }

  /** What speaks for the options comes through as they are. */
  lemma OptionsSpeak(t: Types, raw: Raw, shared: map<string, Raw>)
    requires AgentShape(t) && raw.Tab? && CLI_AGENT in t.structs && GoodFields(t, t.structs[CLI_AGENT])
    requires IsCustomAgent(t, raw.entries)
    requires ProjectFields(t, raw, SharedKeysOf(t, raw.entries), t.structs[CLI_AGENT], true) == Ok(shared)
    ensures var variants := Variants(t, CLI_AGENT, raw.entries, "options");
      && (variants != {} <==> "options" in shared)
      && ("options" in shared ==>
            exists from :: Speaks(variants, "options", from) && raw.entries[from] == shared["options"])
  {
    var variants := Variants(t, CLI_AGENT, raw.entries, "options");
    var f :| f in t.structs[CLI_AGENT] && f.Included() && f.tag.name == "options" && f.schema == Own;
    VariantsAreMatches(t, CLI_AGENT, raw.entries, "options");
    if variants != {} {
      MatchedFieldStays(t, raw, SharedKeysOf(t, raw.entries), t.structs[CLI_AGENT], true, f);
    }
    if "options" in shared {
      var from := TableComesThrough(t, raw, shared, f);
    }
  }

  lemma OneSpeaks(variants: set<string>, k: string, x: string, y: string)
    requires Speaks(variants, k, x) && Speaks(variants, k, y)
    ensures x == y
  {
    assert y in variants;
  }

  lemma OptionsAcceptedExactly(t: Types, raw: Raw, shared: map<string, Raw>)
    requires AgentShape(t) && raw.Tab? && CLI_AGENT in t.structs && GoodFields(t, t.structs[CLI_AGENT])
    requires IsCustomAgent(t, raw.entries)
    requires ProjectFields(t, raw, SharedKeysOf(t, raw.entries), t.structs[CLI_AGENT], true) == Ok(shared)
    ensures OptionsAcceptable(t, raw.entries) <==>
      && OwnAreScalars(t, raw.entries)
      && ("options" in shared ==> FreshTable(t, raw.entries, shared["options"]))
  {
    OptionsSpeak(t, raw, shared);
    if "options" in shared {
      var variants := Variants(t, CLI_AGENT, raw.entries, "options");
      var from :| Speaks(variants, "options", from) && raw.entries[from] == shared["options"];
      forall x | Speaks(variants, "options", x) ensures x == from {
        OneSpeaks(variants, "options", x, from);
      }
    }
  }

  /** Nothing but plain fields, no two of which are case variants of each other. */
  ghost predicate PlainFields(t: Types, fields: seq<Field>) {
    && (forall f :: f in fields ==> f.Included() && !f.anonymous && f.schema == Basic)
    && (forall i, j :: 0 <= i < j < |fields| ==> t.fold(fields[i].tag.name) != t.fold(fields[j].tag.name))
  }

  /** The declared names are no case variants of each other. */
  ghost predicate NamesDiffer(t: Types, fields: seq<Field>) {
    forall i, j :: 0 <= i < j < |fields| && fields[i].Included() && fields[j].Included() ==>
        t.fold(fields[i].tag.name) != t.fold(fields[j].tag.name)
  }

  lemma PlainIsAccepted(t: Types, name: string, visiting: set<string>)
    requires name in t.structs && name !in visiting && PlainFields(t, t.structs[name])
    ensures Accepts(t, Struct(name), visiting)
  {
  }

  lemma DeclaredFieldIsAccepted(t: Types, i: nat)
    requires "ReviewLimitsConfig" in t.structs && PlainFields(t, t.structs["ReviewLimitsConfig"])
    requires i < |CLI_AGENT_FIELDS|
    ensures var f := CLI_AGENT_FIELDS[i];
      && f.exported && !f.anonymous && !f.tag.Missing?
      && (f.Included() ==> Accepts(t, f.schema, {CLI_AGENT}))
  {
    PlainIsAccepted(t, "ReviewLimitsConfig", {CLI_AGENT});
    assert CLI_AGENT != "ReviewLimitsConfig";
  }

  /** The agent settings the daemon declares are an accepted type. */
  lemma DeclaredAgentIsAccepted(t: Types)
    requires AsDeclared(t) && CLI_AGENT in t.structs && NamesDiffer(t, CLI_AGENT_FIELDS)
    requires "ReviewLimitsConfig" in t.structs && PlainFields(t, t.structs["ReviewLimitsConfig"])
    ensures Accepts(t, Struct(CLI_AGENT), {})
  {
    var fields := t.structs[CLI_AGENT];
    forall f | f in fields
      ensures f.exported && !f.anonymous && !f.tag.Missing?
      ensures f.Included() ==> Accepts(t, f.schema, {} + {CLI_AGENT}) {
      var i :| 0 <= i < |fields| && fields[i] == f;
      DeclaredFieldIsAccepted(t, i);
      assert {} + {CLI_AGENT} == {CLI_AGENT};
    }
  }
}
