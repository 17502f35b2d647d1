/** The canonical view of a raw configuration: known keys, folded aliases, gathered options. */
module Projection {
  import opened Wrappers

  /** A decoded TOML value. An array of tables is a type of its own. */
  datatype Raw =
    | Str(s: string)
    | Bool(b: bool)
    | Int(i: int)
    | Float(r: real)
    | Time(at: int)
    | Arr(ofTables: bool, elems: seq<Raw>)
    | Tab(entries: map<string, Raw>)

  /** A Go type, as reflection shows it. Own decodes its own text or TOML. Struct
      types are named, so that a type can contain itself. */
  datatype Schema =
    | Own
    | Basic
    | Struct(name: string)
    | MapOf(stringKeys: bool, elem: Schema)
    | ListOf(elem: Schema)
    | Interface
    | Pointer(to: Schema)

  datatype Tag = Skip | Missing | Named(name: string)

  datatype Field = Field(exported: bool, anonymous: bool, tag: Tag, schema: Schema)
  {
    predicate Included() {
      exported && tag.Named?
    }
  }

  /** fold stands for case folding: two keys are case variants if it maps them alike.
      shared are the keys of a custom agent's table that are not option values. */
  datatype Types = Types(fold: string -> string, structs: map<string, seq<Field>>, shared: set<string>)

  const CLI_AGENT := "CLIAgentConfig"
  const SKIP_PERMS := "dangerously_skip_perms"

  function Plain(name: string): Field {
    Field(true, false, Named(name), Basic)
  }

  /** The fields of one agent's settings. */
  const CLI_AGENT_FIELDS := [
    Plain("model"), Plain("max_turns"), Plain("approval_mode"), Plain("extra_flags"), Plain("prompt"),
    Plain("effort"), Plain("permission_mode"), Plain("bare"), Plain(SKIP_PERMS), Plain("no_session_persistence"),
    Plain("execution_timeout"),
    Field(true, false, Named("review_limits"), Pointer(Struct("ReviewLimitsConfig"))),
    Plain("binary"), Plain("schema_path"),
    Field(true, false, Named("schema"), Pointer(Own)),
    Field(true, false, Named("options"), Own),
    Field(true, false, Skip, Pointer(Struct("Schema")))]

  const SHARED_KEYS := {
    "binary", "schema", "schema_path", "options", "model", "prompt", "extra_flags", "execution_timeout",
        "review_limits"}

  predicate IsShared(t: Types, key: string) {
    exists k :: k in t.shared && t.fold(k) == t.fold(key)
  }

  function Indirect(schema: Schema): (r: Schema)
    ensures !r.Pointer?
  {
    if schema.Pointer? then Indirect(schema.to) else schema
  }

  predicate Structural(schema: Schema) {
    Indirect(schema).Struct? || Indirect(schema).MapOf?
  }

  datatype Shape = StrShape | BoolShape | IntShape | FloatShape | TimeShape | ArrShape | TabsShape | TabShape

  function ShapeOf(raw: Raw): Shape {
    match raw
    case Str(_) => StrShape
    case Bool(_) => BoolShape
    case Int(_) => IntShape
    case Float(_) => FloatShape
    case Time(_) => TimeShape
    case Arr(ofTables, _) => if ofTables then TabsShape else ArrShape
    case Tab(_) => TabShape
  }

  /** Every array inside, at any depth, has elements of one type. */
  predicate Homogeneous(raw: Raw) {
    match raw
    case Arr(_, elems) =>
      forall i :: 0 <= i < |elems| ==> ShapeOf(elems[i]) == ShapeOf(elems[0]) && Homogeneous(elems[i])
    case Tab(entries) => forall k :: k in entries ==> Homogeneous(entries[k])
    case _ => true
  }

  predicate IsScalar(raw: Raw) {
    raw.Str? || raw.Bool? || raw.Int? || raw.Float?
  }

  /** The case variants of a canonical name among the keys. */
  function Matches(t: Types, keys: set<string>, canonical: string): set<string> {
    set k | k in keys && t.fold(k) == t.fold(canonical)
  }

  /** The canonical key if present, else the only variant. */
  ghost function Select(matches: set<string>, canonical: string): Option<string> {
    if canonical in matches then Some(canonical)
    else if |matches| == 1 then
      var k :| k in matches;
      Some(k)
    else None
  }

  /** True only if every variant is true; anything but a boolean is refused. */
  function FailClosed(entries: map<string, Raw>, matches: set<string>): Result<Raw>
    requires matches <= entries.Keys
  {
    if exists k :: k in matches && !entries[k].Bool? then Err("must be a boolean")
    else Ok(Bool(forall k :: k in matches ==> entries[k].b))
  }

  ghost function Project(t: Types, raw: Raw, schema: Schema): Result<Raw>
    decreases raw, 3, 0
  {
    if raw.Arr? && !Homogeneous(raw) then Err("mixed element types")
    else
      match Indirect(schema)
      case Own => Ok(raw)
      case Struct(name) =>
        if !raw.Tab? then Ok(raw)
        else if name !in t.structs then Err("no such type")
        else if name == CLI_AGENT && IsCustomAgent(t, raw.entries) then ProjectCustom(t, raw)
        else
          var out :- ProjectFields(t, raw, raw.entries.Keys, t.structs[name], name == CLI_AGENT);
          Ok(Tab(out))
      case MapOf(stringKeys, elem) =>
        if !stringKeys then Err("must use string keys")
        else if !raw.Tab? then Ok(raw)
        else if exists k :: k in raw.entries && Project(t, raw.entries[k], elem).Err? then Err("bad entry")
        else Ok(Tab(ProjectEntries(t, raw, elem)))
      case ListOf(_) => Ok(raw)
      case Interface => Err("unsupported interface type")
      case Basic => Ok(raw)
  }

  /** Map keys are user data: their spelling is kept. */
  ghost function ProjectEntries(t: Types, raw: Raw, elem: Schema): (out: map<string, Raw>)
    requires raw.Tab? && forall k :: k in raw.entries ==> Project(t, raw.entries[k], elem).Ok?
    ensures out.Keys == raw.entries.Keys
    ensures forall k :: k in out ==> Project(t, raw.entries[k], elem) == Ok(out[k])
    decreases raw, 0, 0
  {
    map k | k in raw.entries :: Project(t, raw.entries[k], elem).value
  }

  predicate IsCustomAgent(t: Types, entries: map<string, Raw>) {
    Matches(t, entries.Keys, "binary") != {}
  }

  /** What one field contributes, looking at the given keys of the table only. */
  ghost function Contribution(t: Types, raw: Raw, keys: set<string>, f: Field, isAgent: bool)
    : Result<Option<(string, Raw)>>
    requires raw.Tab? && keys <= raw.entries.Keys
    decreases raw, 0, 0
  {
    if !f.exported then Ok(None)
    else if f.anonymous then Err("unsupported anonymous field")
    else
      match f.tag
      case Missing => Err("exported field is missing a toml tag")
      case Skip => Ok(None)
      case Named(name) =>
        var matches := Matches(t, keys, name);
        if matches == {} then Ok(None)
        else if isAgent && name == SKIP_PERMS then
          var v :- FailClosed(raw.entries, matches);
          Ok(Some((name, v)))
        else if Structural(f.schema) && |matches| > 1 then Err("ambiguous structural aliases")
        else
          var selected := Select(matches, name);
          if selected.None? then Err("ambiguous aliases")
          else
            var v :- Project(t, raw.entries[selected.value], f.schema);
            Ok(Some((name, v)))
  }

  ghost function Contributions(t: Types, raw: Raw, keys: set<string>, fields: seq<Field>, isAgent: bool)
    : (cs: seq<Result<Option<(string, Raw)>>>)
    requires raw.Tab? && keys <= raw.entries.Keys
    ensures |cs| == |fields|
    ensures forall i :: 0 <= i < |fields| ==> cs[i] == Contribution(t, raw, keys, fields[i], isAgent)
    decreases raw, 1, |fields|
  {
    seq(|fields|, i requires 0 <= i < |fields| => Contribution(t, raw, keys, fields[i], isAgent))
  }

  /** The first error, or what the fields contribute, gathered in order. */
  function Collect(cs: seq<Result<Option<(string, Raw)>>>): Result<map<string, Raw>> {
    if cs == [] then Ok(map[])
    else
      var out :- Collect(cs[..|cs| - 1]);
      var c :- cs[|cs| - 1];
      Ok(if c.Some? then out[c.value.0 := c.value.1] else out)
  }

  ghost function ProjectFields(t: Types, raw: Raw, keys: set<string>, fields: seq<Field>, isAgent: bool)
    : Result<map<string, Raw>>
    requires raw.Tab? && keys <= raw.entries.Keys
    decreases raw, 1, |fields| + 1
  {
    Collect(Contributions(t, raw, keys, fields, isAgent))
  }

  function SharedKeysOf(t: Types, entries: map<string, Raw>): set<string> {
    set k | k in entries && IsShared(t, k)
  }

  /** The values a custom agent's table holds next to its shared keys. */
  function OwnOptions(t: Types, entries: map<string, Raw>): map<string, Raw> {
    map k | k in entries && !IsShared(t, k) :: entries[k]
  }

  ghost function ProjectCustom(t: Types, raw: Raw): Result<Raw>
    requires raw.Tab? && CLI_AGENT in t.structs
    decreases raw, 2, 0
  {
    var own := OwnOptions(t, raw.entries);
    if exists k :: k in own && !IsScalar(own[k]) then Err("a custom agent's option must be a scalar")
    else
      var out :- ProjectFields(t, raw, SharedKeysOf(t, raw.entries), t.structs[CLI_AGENT], true);
      if "options" in out && !out["options"].Tab? then Err("options must be a table")
      else
        var explicit := if "options" in out then out["options"].entries else map[];
        if exists k :: k in explicit && k in own then Err("option is set twice")
        else
          var all := own + explicit;
          Ok(Tab(if all != map[] then out["options" := Tab(all)] else out - {"options"}))
  }

  /** The schema check at startup. visiting holds the struct types being looked into. */
  predicate Accepts(t: Types, schema: Schema, visiting: set<string>)
    decreases t.structs.Keys - visiting, schema
  {
    match schema
    case Pointer(to) => Accepts(t, to, visiting)
    case Own => true
    case Basic => true
    case Interface => false
    case MapOf(stringKeys, elem) => stringKeys && Accepts(t, elem, visiting)
    case ListOf(elem) => Indirect(elem).Own? || Indirect(elem).Basic?
    case Struct(name) =>
      && name in t.structs && name !in visiting
      && (forall f :: f in t.structs[name] && f.exported ==> !f.anonymous && !f.tag.Missing?)
      && var fields := t.structs[name];
      && (forall i, j :: 0 <= i < j < |fields| && fields[i].Included() && fields[j].Included() ==>
            t.fold(fields[i].tag.name) != t.fold(fields[j].tag.name))
      && (forall f :: f in t.structs[name] && f.Included() ==> Accepts(t, f.schema, visiting + {name}))
  }

  lemma {:induction false} AcceptsWithFewer(t: Types, schema: Schema, visiting: set<string>, fewer: set<string>)
    requires Accepts(t, schema, visiting) && fewer <= visiting
    ensures Accepts(t, schema, fewer)
    decreases t.structs.Keys - visiting, schema
  {
    match schema
    case Pointer(to) => AcceptsWithFewer(t, to, visiting, fewer);
    case MapOf(_, elem) => AcceptsWithFewer(t, elem, visiting, fewer);
    case Struct(name) =>
      forall f | f in t.structs[name] && f.Included() ensures Accepts(t, f.schema, fewer + {name}) {
        AcceptsWithFewer(t, f.schema, visiting + {name}, fewer + {name});
      }
    case _ =>
  }

  /** What the schema check establishes for the fields of one struct type. */
  ghost predicate GoodFields(t: Types, fields: seq<Field>) {
    && (forall i, j :: 0 <= i < j < |fields| && fields[i].Included() && fields[j].Included() ==>
          t.fold(fields[i].tag.name) != t.fold(fields[j].tag.name))
    && (forall f :: f in fields && f.exported ==> !f.anonymous && !f.tag.Missing?)
    && (forall f :: f in fields && f.Included() ==> Accepts(t, f.schema, {}))
  }

  lemma AcceptedFieldsAreGood(t: Types, name: string)
    requires Accepts(t, Struct(name), {})
    ensures name in t.structs && GoodFields(t, t.structs[name])
  {
    forall f | f in t.structs[name] && f.Included() ensures Accepts(t, f.schema, {}) {
      AcceptsWithFewer(t, f.schema, {} + {name}, {});
    }
  }

  predicate Names(c: Result<Option<(string, Raw)>>, k: string) {
    c.Ok? && c.value.Some? && c.value.value.0 == k
  }

  /** The table holds what is contributed, under the name it is contributed under, and nothing else. */
  ghost predicate Gathered(cs: seq<Result<Option<(string, Raw)>>>, out: map<string, Raw>) {
    && (forall i :: 0 <= i < |cs| ==> cs[i].Ok?)
    && (forall i, k :: 0 <= i < |cs| && Names(cs[i], k) ==> k in out && out[k] == cs[i].value.value.1)
    && (forall k :: k in out ==> exists i :: 0 <= i < |cs| && Names(cs[i], k))
  }

  lemma {:induction false} GatheredIsCollected(cs: seq<Result<Option<(string, Raw)>>>, out: map<string, Raw>)
    requires Gathered(cs, out)
    ensures Collect(cs) == Ok(out)
    decreases |cs|
  {
    if cs != [] {
      var before := GatheredBefore(cs, out);
      GatheredIsCollected(cs[..|cs| - 1], before);
    }
  }

  lemma GatheredBefore(cs: seq<Result<Option<(string, Raw)>>>, out: map<string, Raw>) returns (before: map<string, Raw>)
    requires cs != [] && Gathered(cs, out)
    ensures Gathered(cs[..|cs| - 1], before)
    ensures var c := cs[|cs| - 1];
      c.Ok? && out == if c.value.Some? then before[c.value.value.0 := c.value.value.1] else before
  {
    var front, c := cs[..|cs| - 1], cs[|cs| - 1];
    before := map k | k in out && SomeNames(front, k) :: out[k];
    PrefixIsGathered(cs, out, before);
    LastIsGathered(cs, out);
    forall k | k in out ensures k in before || Names(c, k) {
      NamedBefore(cs, k);
    }
    LastIsAdded(before, c.value, out);
  }

  lemma LastIsGathered(cs: seq<Result<Option<(string, Raw)>>>, out: map<string, Raw>)
    requires cs != [] && Gathered(cs, out)
    ensures var c := cs[|cs| - 1];
      c.Ok? && (c.value.Some? ==> c.value.value.0 in out && out[c.value.value.0] == c.value.value.1)
  {
    var c := cs[|cs| - 1];
    assert c.Ok? && (c.value.Some? ==> Names(c, c.value.value.0));
  }

  lemma LastIsAdded(before: map<string, Raw>, named: Option<(string, Raw)>, out: map<string, Raw>)
    requires forall k :: k in before ==> k in out && out[k] == before[k]
    requires forall k :: k in out ==> k in before || (named.Some? && named.value.0 == k)
    requires named.Some? ==> named.value.0 in out && out[named.value.0] == named.value.1
    ensures out == if named.Some? then before[named.value.0 := named.value.1] else before
  {
  }

  lemma PrefixIsGathered(cs: seq<Result<Option<(string, Raw)>>>, out: map<string, Raw>, before: map<string, Raw>)
    requires cs != [] && Gathered(cs, out)
    requires before == map k | k in out && SomeNames(cs[..|cs| - 1], k) :: out[k]
    ensures Gathered(cs[..|cs| - 1], before)
  {
    var front := cs[..|cs| - 1];
    forall i, k | 0 <= i < |front| && Names(front[i], k) ensures k in before && before[k] == front[i].value.value.1 {
      assert Names(cs[i], k);
      assert SomeNames(front, k);
    }
    forall k | k in before ensures exists i :: 0 <= i < |front| && Names(front[i], k) {
      assert SomeNames(front, k);
    }
  }

  lemma NamedBefore(cs: seq<Result<Option<(string, Raw)>>>, k: string)
    requires cs != [] && SomeNames(cs, k)
    ensures SomeNames(cs[..|cs| - 1], k) || Names(cs[|cs| - 1], k)
  {
    var i :| 0 <= i < |cs| && Names(cs[i], k);
    assert i < |cs| - 1 ==> Names(cs[..|cs| - 1][i], k);
  }

  ghost predicate SomeNames(cs: seq<Result<Option<(string, Raw)>>>, k: string) {
    exists i :: 0 <= i < |cs| && Names(cs[i], k)
  }

  lemma {:induction false} CollectedIsGathered(cs: seq<Result<Option<(string, Raw)>>>)
    requires Collect(cs).Ok?
    requires forall i, j, k :: 0 <= i < j < |cs| && Names(cs[i], k) ==> !Names(cs[j], k)
    ensures Gathered(cs, Collect(cs).value)
    decreases |cs|
  {
    if cs != [] {
      var front, c := cs[..|cs| - 1], cs[|cs| - 1];
      assert cs == front + [c];
      CollectedIsGathered(front);
      var before, out := Collect(front).value, Collect(cs).value;
      forall i, k | 0 <= i < |cs| && Names(cs[i], k) ensures k in out && out[k] == cs[i].value.value.1 {
        if i < |front| {
          assert Names(front[i], k) && !Names(c, k);
        }
      }
      forall k | k in out ensures exists i :: 0 <= i < |cs| && Names(cs[i], k) {
        if k in before {
          var i :| 0 <= i < |front| && Names(front[i], k);
          assert Names(cs[i], k);
        } else {
          assert Names(cs[|front|], k);
        }
      }
    }
  }

  lemma ContributesUnderItsName(t: Types, raw: Raw, keys: set<string>, f: Field, isAgent: bool, k: string)
    requires raw.Tab? && keys <= raw.entries.Keys
    ensures Names(Contribution(t, raw, keys, f, isAgent), k) ==> f.Included() && !f.anonymous && f.tag.name == k
  {
  }

  lemma FieldsAreGathered(t: Types, raw: Raw, keys: set<string>, fields: seq<Field>, isAgent: bool)
    requires raw.Tab? && keys <= raw.entries.Keys && GoodFields(t, fields)
    requires ProjectFields(t, raw, keys, fields, isAgent).Ok?
    ensures Gathered(Contributions(t, raw, keys, fields, isAgent), ProjectFields(t, raw, keys, fields, isAgent).value)
  {
    var cs := Contributions(t, raw, keys, fields, isAgent);
    forall i, j, k | 0 <= i < j < |cs| && Names(cs[i], k) ensures !Names(cs[j], k) {
      ContributesUnderItsName(t, raw, keys, fields[i], isAgent, k);
      ContributesUnderItsName(t, raw, keys, fields[j], isAgent, k);
    }
    CollectedIsGathered(cs);
  }

  /** Every key of the table is the canonical name of a field. */
  ghost predicate AllCanonical(fields: seq<Field>, keys: set<string>) {
    forall k :: k in keys ==> exists i :: 0 <= i < |fields| && fields[i].Included() && fields[i].tag.name == k
  }

  /** Among canonical keys, a field's only variant is its own name. */
  lemma CanonicalMatches(t: Types, fields: seq<Field>, keys: set<string>, f: Field)
    requires GoodFields(t, fields) && AllCanonical(fields, keys) && f in fields && f.Included()
    ensures Matches(t, keys, f.tag.name) == if f.tag.name in keys then {f.tag.name} else {}
  {
    var i :| 0 <= i < |fields| && fields[i] == f;
    forall k | k in keys && t.fold(k) == t.fold(f.tag.name) ensures k == f.tag.name {
      var j :| 0 <= j < |fields| && fields[j].Included() && fields[j].tag.name == k;
      assert i == j;
    }
  }

  /** Projecting the value again changes nothing. */
  ghost predicate FixedValue(t: Types, f: Field, isAgent: bool, v: Raw)
    requires f.Included()
  {
    if isAgent && f.tag.name == SKIP_PERMS then v.Bool? else Project(t, v, f.schema) == Ok(v)
  }

  /** A table of canonical keys whose values are fixed is fixed. */
  lemma CanonicalTableIsFixed(t: Types, fields: seq<Field>, out: map<string, Raw>, isAgent: bool)
    requires GoodFields(t, fields) && AllCanonical(fields, out.Keys)
    requires forall f :: f in fields && f.Included() && f.tag.name in out ==> FixedValue(t, f, isAgent, out[f.tag.name])
    ensures ProjectFields(t, Tab(out), out.Keys, fields, isAgent) == Ok(out)
  {
    var cs := Contributions(t, Tab(out), out.Keys, fields, isAgent);
    forall i | 0 <= i < |cs| ensures cs[i] == Keeps(fields[i], out) {
      FixedFieldContributesItself(t, fields, out, fields[i], isAgent);
    }
    OwnAreGathered(t, fields, cs, out);
    GatheredIsCollected(cs, out);
  }

  /** What a field takes from a table of canonical keys. */
  function Keeps(f: Field, out: map<string, Raw>): Result<Option<(string, Raw)>> {
    if f.Included() && f.tag.name in out then Ok(Some((f.tag.name, out[f.tag.name]))) else Ok(None)
  }

  lemma FixedFieldContributesItself(t: Types, fields: seq<Field>, out: map<string, Raw>, f: Field, isAgent: bool)
    requires GoodFields(t, fields) && AllCanonical(fields, out.Keys) && f in fields
    requires f.Included() && f.tag.name in out ==> FixedValue(t, f, isAgent, out[f.tag.name])
    ensures Contribution(t, Tab(out), out.Keys, f, isAgent) == Keeps(f, out)
  {
    if f.Included() {
      CanonicalMatches(t, fields, out.Keys, f);
    }
  }

  lemma OwnAreGathered(t: Types, fields: seq<Field>, cs: seq<Result<Option<(string, Raw)>>>, out: map<string, Raw>)
    requires |cs| == |fields| && AllCanonical(fields, out.Keys)
    requires forall i :: 0 <= i < |cs| ==> cs[i] == Keeps(fields[i], out)
    ensures Gathered(cs, out)
  {
    forall k | k in out ensures exists i :: 0 <= i < |cs| && Names(cs[i], k) {
      var i :| 0 <= i < |fields| && fields[i].Included() && fields[i].tag.name == k;
      assert Names(cs[i], k);
    }
  }

  lemma ContributionOrigin(t: Types, raw: Raw, keys: set<string>, f: Field, isAgent: bool, v: Raw)
      returns (from: string)
    requires raw.Tab? && keys <= raw.entries.Keys && f.Included()
    requires Contribution(t, raw, keys, f, isAgent) == Ok(Some((f.tag.name, v)))
    ensures from in Matches(t, keys, f.tag.name)
    ensures if isAgent && f.tag.name == SKIP_PERMS then FailClosed(raw.entries, Matches(t, keys, f.tag.name)) == Ok(v)
            else
              && Project(t, raw.entries[from], f.schema) == Ok(v)
              && (if f.tag.name in keys then from == f.tag.name else Matches(t, keys, f.tag.name) == {from})
  {
    var matches := Matches(t, keys, f.tag.name);
    if isAgent && f.tag.name == SKIP_PERMS {
      from :| from in matches;
    } else {
      from := Select(matches, f.tag.name).value;
      if f.tag.name !in keys {
        OnlyElement(matches, from);
      }
    }
  }

  /** Where an output key comes from: the canonical name of a field some visible key is a
      variant of; its value is that of the canonical key if present, else of the only variant. */
  lemma KeyOrigin(t: Types, raw: Raw, keys: set<string>, fields: seq<Field>, isAgent: bool, k: string)
    returns (f: Field, from: string)
    requires raw.Tab? && keys <= raw.entries.Keys && GoodFields(t, fields)
    requires ProjectFields(t, raw, keys, fields, isAgent).Ok?
    requires k in ProjectFields(t, raw, keys, fields, isAgent).value
    ensures f in fields && f.Included() && f.tag.name == k && from in Matches(t, keys, k)
    ensures var v := ProjectFields(t, raw, keys, fields, isAgent).value[k];
      if isAgent && k == SKIP_PERMS then FailClosed(raw.entries, Matches(t, keys, k)) == Ok(v)
      else
        && Project(t, raw.entries[from], f.schema) == Ok(v)
        && (if k in keys then from == k else Matches(t, keys, k) == {from})
  {
    var cs := Contributions(t, raw, keys, fields, isAgent);
    FieldsAreGathered(t, raw, keys, fields, isAgent);
    var i :| 0 <= i < |cs| && Names(cs[i], k);
    f := fields[i];
    ContributesUnderItsName(t, raw, keys, f, isAgent, k);
    from := ContributionOrigin(t, raw, keys, f, isAgent, cs[i].value.value.1);
  }

  lemma OnlyElement(s: set<string>, x: string)
    requires |s| == 1 && x in s
    ensures s == {x}
  {
    assert |s - {x}| == 0;
  }

  lemma SameNameSameField(t: Types, fields: seq<Field>, f: Field, g: Field)
    requires GoodFields(t, fields) && f in fields && g in fields && f.Included() && g.Included() &&
            f.tag.name == g.tag.name
    ensures f == g
  {
    var i :| 0 <= i < |fields| && fields[i] == f;
    var j :| 0 <= j < |fields| && fields[j] == g;
  }

  lemma {:induction false} AcceptsBehindPointers(t: Types, schema: Schema, visiting: set<string>)
    requires Accepts(t, schema, visiting)
    ensures Accepts(t, Indirect(schema), visiting)
  {
    if schema.Pointer? {
      AcceptsBehindPointers(t, schema.to, visiting);
    }
  }

  /** The agent settings and the shared keys are the ones the daemon declares. */
  ghost predicate AsDeclared(t: Types) {
    && t.shared == SHARED_KEYS
    && (CLI_AGENT in t.structs ==> t.structs[CLI_AGENT] == CLI_AGENT_FIELDS)
  }

  /** What a custom agent's table needs of the agent settings: a field for every shared
      key, and options that decode themselves. */
  ghost predicate AgentFields(t: Types, fields: seq<Field>) {
    && "binary" in t.shared && "options" in t.shared
    && (forall sk :: sk in t.shared ==> exists f :: f in fields && f.Included() && f.tag.name == sk)
    && (exists f :: f in fields && f.Included() && f.tag.name == "options" && f.schema == Own)
  }

  ghost predicate AgentShape(t: Types) {
    CLI_AGENT in t.structs ==> AgentFields(t, t.structs[CLI_AGENT])
  }

  /** Projecting a projected configuration returns it unchanged. */
  lemma {:induction false} ProjectionIsIdempotent(t: Types, raw: Raw, schema: Schema)
    requires AgentShape(t) && Accepts(t, schema, {})
    requires Project(t, raw, schema).Ok?
    ensures Project(t, Project(t, raw, schema).value, schema) == Project(t, raw, schema)
    decreases raw, 1
  {
    AcceptsBehindPointers(t, schema, {});
    match Indirect(schema)
    case MapOf(_, elem) =>
      if raw.Tab? {
        MapIsFixed(t, raw, elem);
        MapOfFixedValuesIsFixed(t, Project(t, raw, schema).value.entries, schema, elem);
      }
    case Struct(name) =>
      if raw.Tab? {
        AcceptedFieldsAreGood(t, name);
        if name == CLI_AGENT && IsCustomAgent(t, raw.entries) {
          CustomIsFixed(t, raw);
        } else {
          StructIsFixed(t, raw, name);
          var out := ProjectFields(t, raw, raw.entries.Keys, t.structs[name], name == CLI_AGENT).value;
          assert Project(t, raw, schema) == Ok(Tab(out));
          assert Project(t, Tab(out), schema) == Ok(Tab(out));
        }
      }
    case _ =>
  }

  lemma MapOfFixedValuesIsFixed(t: Types, out: map<string, Raw>, schema: Schema, elem: Schema)
    requires Indirect(schema) == MapOf(true, elem)
    requires forall k :: k in out ==> Project(t, out[k], elem) == Ok(out[k])
    ensures Project(t, Tab(out), schema) == Ok(Tab(out))
  {
    assert ProjectEntries(t, Tab(out), elem) == out;
  }

  lemma {:induction false} MapIsFixed(t: Types, raw: Raw, elem: Schema)
    requires AgentShape(t) && Accepts(t, elem, {}) && raw.Tab?
    requires forall k :: k in raw.entries ==> Project(t, raw.entries[k], elem).Ok?
    ensures forall k :: k in raw.entries ==>
              Project(t, Project(t, raw.entries[k], elem).value, elem) == Project(t, raw.entries[k], elem)
    decreases raw, 0, 0
  {
    forall k | k in raw.entries
      ensures Project(t, Project(t, raw.entries[k], elem).value, elem) == Project(t, raw.entries[k], elem)
    {
      ProjectionIsIdempotent(t, raw.entries[k], elem);
    }
  }

  lemma {:induction false} FieldValueIsFixed(t: Types, raw: Raw, keys: set<string>, fields: seq<Field>, isAgent: bool,
                                             f: Field)
    requires AgentShape(t) && raw.Tab? && keys <= raw.entries.Keys && GoodFields(t, fields)
    requires ProjectFields(t, raw, keys, fields, isAgent).Ok?
    requires f in fields && f.Included() && f.tag.name in ProjectFields(t, raw, keys, fields, isAgent).value
    ensures FixedValue(t, f, isAgent, ProjectFields(t, raw, keys, fields, isAgent).value[f.tag.name])
    decreases raw, 0, 0
  {
    var g, from := KeyOrigin(t, raw, keys, fields, isAgent, f.tag.name);
    SameNameSameField(t, fields, f, g);
    if !(isAgent && f.tag.name == SKIP_PERMS) {
      ProjectionIsIdempotent(t, raw.entries[from], f.schema);
    }
  }

  lemma KeysAreCanonical(t: Types, raw: Raw, keys: set<string>, fields: seq<Field>, isAgent: bool)
    requires raw.Tab? && keys <= raw.entries.Keys && GoodFields(t, fields)
    requires ProjectFields(t, raw, keys, fields, isAgent).Ok?
    ensures AllCanonical(fields, ProjectFields(t, raw, keys, fields, isAgent).value.Keys)
  {
    var out := ProjectFields(t, raw, keys, fields, isAgent).value;
    forall k | k in out.Keys ensures exists i :: 0 <= i < |fields| && fields[i].Included() && fields[i].tag.name == k {
      var f, _ := KeyOrigin(t, raw, keys, fields, isAgent, k);
    }
  }

  lemma {:induction false} StructIsFixed(t: Types, raw: Raw, name: string)
    requires AgentShape(t) && raw.Tab? && name in t.structs && GoodFields(t, t.structs[name])
    requires !(name == CLI_AGENT && IsCustomAgent(t, raw.entries))
    requires ProjectFields(t, raw, raw.entries.Keys, t.structs[name], name == CLI_AGENT).Ok?
    ensures var out := ProjectFields(t, raw, raw.entries.Keys, t.structs[name], name == CLI_AGENT).value;
      && ProjectFields(t, Tab(out), out.Keys, t.structs[name], name == CLI_AGENT) == Ok(out)
      && !(name == CLI_AGENT && IsCustomAgent(t, out))
    decreases raw, 0, 1
  {
    var fields, isAgent := t.structs[name], name == CLI_AGENT;
    var out := ProjectFields(t, raw, raw.entries.Keys, fields, isAgent).value;
    KeysAreCanonical(t, raw, raw.entries.Keys, fields, isAgent);
    forall f | f in fields && f.Included() && f.tag.name in out ensures FixedValue(t, f, isAgent, out[f.tag.name]) {
      FieldValueIsFixed(t, raw, raw.entries.Keys, fields, isAgent, f);
    }
    CanonicalTableIsFixed(t, fields, out, isAgent);
    if isAgent {
      forall k | k in out.Keys ensures k !in Matches(t, out.Keys, "binary") {
        var f, from := KeyOrigin(t, raw, raw.entries.Keys, fields, isAgent, k);
        assert from !in Matches(t, raw.entries.Keys, "binary");
      }
      assert Matches(t, out.Keys, "binary") == {};
    }
  }

  lemma FieldAt(i: nat, f: Field)
    requires i < |CLI_AGENT_FIELDS| && CLI_AGENT_FIELDS[i] == f && f.Included()
    ensures exists g :: g in CLI_AGENT_FIELDS && g.Included() && g.tag.name == f.tag.name && g.schema == f.schema
  {
  }

  lemma DeclaredAgentFields(t: Types)
    requires AsDeclared(t)
    ensures AgentShape(t)
  {
    if CLI_AGENT in t.structs {
      forall sk | sk in t.shared ensures exists f :: f in t.structs[CLI_AGENT] && f.Included() && f.tag.name == sk {
        DeclaredSharedKey(sk);
      }
      FieldAt(15, Field(true, false, Named("options"), Own));
    }
  }

  lemma DeclaredSharedKey(sk: string)
    requires sk in SHARED_KEYS
    ensures exists f :: f in CLI_AGENT_FIELDS && f.Included() && f.tag.name == sk
  {
    if sk == "model" {
      FieldAt(0, Plain(sk));
    } else if sk == "extra_flags" {
      FieldAt(3, Plain(sk));
    } else if sk == "prompt" {
      FieldAt(4, Plain(sk));
    } else if sk == "execution_timeout" {
      FieldAt(10, Plain(sk));
    } else if sk == "review_limits" {
      FieldAt(11, Field(true, false, Named(sk), Pointer(Struct("ReviewLimitsConfig"))));
    } else if sk == "binary" {
      FieldAt(12, Plain(sk));
    } else if sk == "schema_path" {
      FieldAt(13, Plain(sk));
    } else if sk == "schema" {
      FieldAt(14, Field(true, false, Named(sk), Pointer(Own)));
    } else {
      FieldAt(15, Field(true, false, Named(sk), Own));
    }
  }

  /** Only shared keys come out of a custom agent's shared part. */
  lemma CustomKeysAreShared(t: Types, raw: Raw, fields: seq<Field>, k: string)
    requires raw.Tab? && GoodFields(t, fields) && AgentFields(t, fields)
    requires ProjectFields(t, raw, SharedKeysOf(t, raw.entries), fields, true).Ok?
    requires k in ProjectFields(t, raw, SharedKeysOf(t, raw.entries), fields, true).value
    ensures k in t.shared
  {
    var f, from := KeyOrigin(t, raw, SharedKeysOf(t, raw.entries), fields, true, k);
    var sk :| sk in t.shared && t.fold(sk) == t.fold(from);
    var g :| g in fields && g.Included() && g.tag.name == sk;
    SameFoldSameField(t, fields, f, g);
  }

  lemma SameFoldSameField(t: Types, fields: seq<Field>, f: Field, g: Field)
    requires GoodFields(t, fields) && f in fields && g in fields && f.Included() && g.Included()
    requires t.fold(f.tag.name) == t.fold(g.tag.name)
    ensures f == g
  {
    var i :| 0 <= i < |fields| && fields[i] == f;
    var j :| 0 <= j < |fields| && fields[j] == g;
  }

  /** What a custom agent's table projects to: its shared part, and all its option values. */
  lemma CustomShape(t: Types, raw: Raw) returns (shared: map<string, Raw>, explicit: map<string, Raw>)
    requires raw.Tab? && CLI_AGENT in t.structs && ProjectCustom(t, raw).Ok?
    ensures ProjectFields(t, raw, SharedKeysOf(t, raw.entries), t.structs[CLI_AGENT], true) == Ok(shared)
    ensures if "options" in shared then shared["options"] == Tab(explicit) else explicit == map[]
    ensures explicit.Keys !! OwnOptions(t, raw.entries).Keys
    ensures var all := OwnOptions(t, raw.entries) + explicit;
      ProjectCustom(t, raw).value == Tab(if all != map[] then shared["options" := Tab(all)] else shared - {"options"})
  {
    shared := ProjectFields(t, raw, SharedKeysOf(t, raw.entries), t.structs[CLI_AGENT], true).value;
    explicit := if "options" in shared then shared["options"].entries else map[];
  }

  /** A field some visible key is a variant of is in the output. */
  lemma MatchedFieldStays(t: Types, raw: Raw, keys: set<string>, fields: seq<Field>, isAgent: bool, f: Field)
    requires raw.Tab? && keys <= raw.entries.Keys && GoodFields(t, fields) && f in fields && f.Included()
    requires ProjectFields(t, raw, keys, fields, isAgent).Ok? && Matches(t, keys, f.tag.name) != {}
    ensures f.tag.name in ProjectFields(t, raw, keys, fields, isAgent).value
  {
    FieldsAreGathered(t, raw, keys, fields, isAgent);
    var cs := Contributions(t, raw, keys, fields, isAgent);
    var i :| 0 <= i < |fields| && fields[i] == f;
    assert cs[i].Ok? && Names(cs[i], f.tag.name);
  }

  /** The binary key makes the table a custom agent's, and stays. */
  lemma BinaryStays(t: Types, raw: Raw, fields: seq<Field>)
    requires raw.Tab? && GoodFields(t, fields) && AgentFields(t, fields) && IsCustomAgent(t, raw.entries)
    requires ProjectFields(t, raw, SharedKeysOf(t, raw.entries), fields, true).Ok?
    ensures "binary" in ProjectFields(t, raw, SharedKeysOf(t, raw.entries), fields, true).value
  {
    var k :| k in Matches(t, raw.entries.Keys, "binary");
    assert IsShared(t, k);
    assert k in Matches(t, SharedKeysOf(t, raw.entries), "binary");
    var f :| f in fields && f.Included() && f.tag.name == "binary";
    MatchedFieldStays(t, raw, SharedKeysOf(t, raw.entries), fields, true, f);
  }

  lemma {:induction false} CustomIsFixed(t: Types, raw: Raw)
    requires AgentShape(t) && raw.Tab? && CLI_AGENT in t.structs && GoodFields(t, t.structs[CLI_AGENT])
    requires IsCustomAgent(t, raw.entries) && ProjectCustom(t, raw).Ok?
    ensures var out := ProjectCustom(t, raw).value;
      out.Tab? && IsCustomAgent(t, out.entries) && ProjectCustom(t, out) == Ok(out)
    decreases raw, 0, 2
  {
    var fields := t.structs[CLI_AGENT];
    var shared, explicit := CustomShape(t, raw);
    var all := OwnOptions(t, raw.entries) + explicit;
    var out := if all != map[] then shared["options" := Tab(all)] else shared - {"options"};
    BinaryStays(t, raw, fields);
    assert "binary" in Matches(t, out.Keys, "binary");
    forall k | k in out ensures k in t.shared {
      if k in shared {
        CustomKeysAreShared(t, raw, fields, k);
      }
    }
    CustomFieldsAreFixed(t, raw, fields, shared, out);
    SharedTableIsFixed(t, out, fields);
  }

  /** A table of shared keys only has no option values of its own to gather. */
  lemma SharedTableIsFixed(t: Types, out: map<string, Raw>, fields: seq<Field>)
    requires CLI_AGENT in t.structs && t.structs[CLI_AGENT] == fields
    requires forall k :: k in out ==> k in t.shared
    requires "options" in out ==> out["options"].Tab? && out["options"].entries != map[]
    requires ProjectFields(t, Tab(out), out.Keys, fields, true) == Ok(out)
    ensures ProjectCustom(t, Tab(out)) == Ok(Tab(out))
  {
    assert SharedKeysOf(t, out) == out.Keys;
    assert OwnOptions(t, out) == map[];
    if "options" in out {
      assert map[] + out["options"].entries == out["options"].entries;
      assert out["options" := Tab(out["options"].entries)] == out;
    } else {
      assert out - {"options"} == out;
    }
  }

  lemma {:induction false} CustomFieldsAreFixed(t: Types, raw: Raw, fields: seq<Field>, shared: map<string, Raw>,
                                                out: map<string, Raw>)
    requires AgentShape(t) && raw.Tab? && GoodFields(t, fields) && AgentFields(t, fields)
    requires ProjectFields(t, raw, SharedKeysOf(t, raw.entries), fields, true) == Ok(shared)
    requires forall k :: k in out ==> k in t.shared
    requires forall k :: k in out && k != "options" ==> k in shared && out[k] == shared[k]
    requires "options" in out ==> out["options"].Tab?
    ensures ProjectFields(t, Tab(out), out.Keys, fields, true) == Ok(out)
    decreases raw, 0, 1
  {
    SharedKeysAreCanonical(t, fields, out.Keys);
    forall f | f in fields && f.Included() && f.tag.name in out ensures FixedValue(t, f, true, out[f.tag.name]) {
      if f.tag.name == "options" {
        OptionsAreFixed(t, fields, f, out["options"]);
      } else {
        FieldValueIsFixed(t, raw, SharedKeysOf(t, raw.entries), fields, true, f);
      }
    }
    CanonicalTableIsFixed(t, fields, out, true);
  }

  lemma SharedKeysAreCanonical(t: Types, fields: seq<Field>, keys: set<string>)
    requires AgentFields(t, fields) && forall k :: k in keys ==> k in t.shared
    ensures AllCanonical(fields, keys)
  {
    forall k | k in keys ensures exists i :: 0 <= i < |fields| && fields[i].Included() && fields[i].tag.name == k {
      var f :| f in fields && f.Included() && f.tag.name == k;
      var i :| 0 <= i < |fields| && fields[i] == f;
    }
  }

  lemma OptionsAreFixed(t: Types, fields: seq<Field>, f: Field, v: Raw)
    requires GoodFields(t, fields) && AgentFields(t, fields) && v.Tab?
    requires f in fields && f.Included() && f.tag.name == "options"
    ensures FixedValue(t, f, true, v)
  {
    var options :| options in fields && options.Included() && options.tag.name == "options" && options.schema == Own;
    SameNameSameField(t, fields, f, options);
  }

  /** Every table projected as a struct has canonical keys only, at any depth. */
  ghost predicate Conforms(t: Types, v: Raw, schema: Schema)
    decreases v
  {
    match Indirect(schema)
    case MapOf(_, elem) => v.Tab? ==> forall k :: k in v.entries ==> Conforms(t, v.entries[k], elem)
    case Struct(name) =>
      v.Tab? ==>
        && name in t.structs
        && forall k :: k in v.entries ==>
             exists f :: f in t.structs[name] && f.Included() && f.tag.name == k && Conforms(t, v.entries[k], f.schema)
    case _ => true
  }

  /** Whatever the projection accepts comes out in canonical shape. */
  lemma {:induction false} ProjectionConforms(t: Types, raw: Raw, schema: Schema)
    requires AgentShape(t) && Accepts(t, schema, {}) && Project(t, raw, schema).Ok?
    ensures Conforms(t, Project(t, raw, schema).value, schema)
    decreases raw, 2
  {
    AcceptsBehindPointers(t, schema, {});
    var out := Project(t, raw, schema).value;
    match Indirect(schema)
    case MapOf(_, elem) =>
      if raw.Tab? {
        forall k | k in raw.entries ensures Conforms(t, out.entries[k], elem) {
          ProjectionConforms(t, raw.entries[k], elem);
        }
      }
    case Struct(name) =>
      if raw.Tab? {
        StructConforms(t, raw, name);
      }
    case _ =>
  }

  lemma {:induction false} StructConforms(t: Types, raw: Raw, name: string)
    requires AgentShape(t) && Accepts(t, Struct(name), {}) && raw.Tab? && Project(t, raw, Struct(name)).Ok?
    ensures Conforms(t, Project(t, raw, Struct(name)).value, Struct(name))
    decreases raw, 1
  {
    AcceptedFieldsAreGood(t, name);
    var out := Project(t, raw, Struct(name)).value;
    if name == CLI_AGENT && IsCustomAgent(t, raw.entries) {
      var shared, explicit := CustomShape(t, raw);
      FieldsConform(t, raw, SharedKeysOf(t, raw.entries), t.structs[name], true, shared);
      OptionsConform(t, t.structs[name], shared, out.entries);
    } else {
      FieldsConform(t, raw, raw.entries.Keys, t.structs[name], name == CLI_AGENT, out.entries);
    }
    KeysConform(t, name, out);
  }

  lemma KeysConform(t: Types, name: string, out: Raw)
    requires name in t.structs
    requires out.Tab? ==> forall k :: k in out.entries ==> KeyConforms(t, t.structs[name], k, out.entries[k])
    ensures Conforms(t, out, Struct(name))
  {
    if out.Tab? {
      forall k | k in out.entries
        ensures exists f :: f in t.structs[name] &&
                            f.Included() && f.tag.name == k && Conforms(t, out.entries[k], f.schema) {
        assert KeyConforms(t, t.structs[name], k, out.entries[k]);
      }
    }
  }

  ghost predicate KeyConforms(t: Types, fields: seq<Field>, k: string, v: Raw) {
    exists f :: f in fields && f.Included() && f.tag.name == k && Conforms(t, v, f.schema)
  }

  lemma {:induction false} FieldsConform(t: Types, raw: Raw, keys: set<string>, fields: seq<Field>, isAgent: bool,
                                         out: map<string, Raw>)
    requires AgentShape(t) && raw.Tab? && keys <= raw.entries.Keys && GoodFields(t, fields)
    requires ProjectFields(t, raw, keys, fields, isAgent) == Ok(out)
    ensures forall k :: k in out ==> KeyConforms(t, fields, k, out[k])
    decreases raw, 0
  {
    forall k | k in out ensures KeyConforms(t, fields, k, out[k]) {
      var f, from := KeyOrigin(t, raw, keys, fields, isAgent, k);
      if !(isAgent && k == SKIP_PERMS) {
        ProjectionConforms(t, raw.entries[from], f.schema);
      }
      assert Conforms(t, out[k], f.schema);
    }
  }

  lemma OptionsConform(t: Types, fields: seq<Field>, shared: map<string, Raw>, out: map<string, Raw>)
    requires AgentFields(t, fields)
    requires forall k :: k in shared ==> KeyConforms(t, fields, k, shared[k])
    requires forall k :: k in out && k != "options" ==> k in shared && out[k] == shared[k]
    ensures forall k :: k in out ==> KeyConforms(t, fields, k, out[k])
  {
    var options :| options in fields && options.Included() && options.tag.name == "options" && options.schema == Own;
    forall k | k in out ensures KeyConforms(t, fields, k, out[k]) {
      if k == "options" {
        assert Conforms(t, out[k], options.schema);
      } else {
        assert KeyConforms(t, fields, k, shared[k]);
      }
    }
  }

  function OptionsOf(out: Raw): map<string, Raw> {
    if out.Tab? && "options" in out.entries && out.entries["options"].Tab? then out.entries["options"].entries
        else map[]
  }

  /** The explicit options are the table some variant of the options key holds. */
  ghost predicate ExplicitOptions(t: Types, entries: map<string, Raw>, explicit: map<string, Raw>) {
    explicit == map[] || exists from :: from in Matches(t, entries.Keys, "options") && entries[from] == Tab(explicit)
  }

  lemma ExplicitComesFromTable(t: Types, raw: Raw, shared: map<string, Raw>, explicit: map<string, Raw>,
                               fields: seq<Field>)
    requires raw.Tab? && GoodFields(t, fields) && AgentFields(t, fields)
    requires ProjectFields(t, raw, SharedKeysOf(t, raw.entries), fields, true) == Ok(shared)
    requires if "options" in shared then shared["options"] == Tab(explicit) else explicit == map[]
    ensures ExplicitOptions(t, raw.entries, explicit)
  {
    if "options" in shared {
      var own :| own in fields && own.Included() && own.tag.name == "options" && own.schema == Own;
      assert "options" != SKIP_PERMS;
      var from := OwnKeyIsKept(t, raw, SharedKeysOf(t, raw.entries), fields, shared, "options", own);
    }
  }

  /** A key whose type decodes itself comes through as it is. */
  lemma OwnKeyIsKept(t: Types, raw: Raw, keys: set<string>, fields: seq<Field>, out: map<string, Raw>, k: string,
                     own: Field) returns (from: string)
    requires raw.Tab? && keys <= raw.entries.Keys && GoodFields(t, fields)
    requires ProjectFields(t, raw, keys, fields, true) == Ok(out) && k in out && k != SKIP_PERMS
    requires own in fields && own.Included() && own.tag.name == k && own.schema == Own
    ensures from in Matches(t, raw.entries.Keys, k) && raw.entries[from] == out[k]
  {
    var f;
    f, from := KeyOrigin(t, raw, keys, fields, true, k);
    SameNameSameField(t, fields, f, own);
  }

  /** No option value of an accepted custom agent is lost, altered or made up: its options
      are exactly the scalars next to its shared keys and the entries of its options key,
      which do not overlap. */
  lemma CustomAgentConserves(t: Types, raw: Raw) returns (explicit: map<string, Raw>)
    requires AgentShape(t) && Accepts(t, Struct(CLI_AGENT), {}) && raw.Tab? && IsCustomAgent(t, raw.entries)
    requires Project(t, raw, Struct(CLI_AGENT)).Ok?
    ensures OptionsOf(Project(t, raw, Struct(CLI_AGENT)).value) == OwnOptions(t, raw.entries) + explicit
    ensures OwnOptions(t, raw.entries).Keys !! explicit.Keys && ExplicitOptions(t, raw.entries, explicit)
    ensures forall k :: k in raw.entries && !IsShared(t, k) ==> IsScalar(raw.entries[k])
  {
    AcceptedFieldsAreGood(t, CLI_AGENT);
    assert Project(t, raw, Struct(CLI_AGENT)) == ProjectCustom(t, raw);
    var shared;
    shared, explicit := CustomShape(t, raw);
    ExplicitComesFromTable(t, raw, shared, explicit, t.structs[CLI_AGENT]);
    OwnOptionsAreScalars(t, raw);
    OptionsOfShape(shared, OwnOptions(t, raw.entries) + explicit);
  }

  lemma OptionsOfShape(shared: map<string, Raw>, all: map<string, Raw>)
    ensures OptionsOf(Tab(if all != map[] then shared["options" := Tab(all)] else shared - {"options"})) == all
  {
  }

  lemma OwnOptionsAreScalars(t: Types, raw: Raw)
    requires raw.Tab? && CLI_AGENT in t.structs && ProjectCustom(t, raw).Ok?
    ensures forall k :: k in raw.entries && !IsShared(t, k) ==> IsScalar(raw.entries[k])
  {
    forall k | k in raw.entries && !IsShared(t, k) ensures IsScalar(raw.entries[k]) {
      assert k in OwnOptions(t, raw.entries);
    }
  }

  ghost predicate HasSkipPerms(fields: seq<Field>) {
    exists f :: f in fields && f.Included() && f.tag.name == SKIP_PERMS
  }

  /** dangerously_skip_perms of a built-in agent is set if any case variant is in the
      table, and is true only if every one of them is. */
  lemma SkipPermsFailsClosed(t: Types, raw: Raw)
    requires Accepts(t, Struct(CLI_AGENT), {}) && HasSkipPerms(t.structs[CLI_AGENT])
    requires raw.Tab? && !IsCustomAgent(t, raw.entries) && Project(t, raw, Struct(CLI_AGENT)).Ok?
    ensures var out := Project(t, raw, Struct(CLI_AGENT)).value;
      var variants := Matches(t, raw.entries.Keys, SKIP_PERMS);
      && out.Tab?
      && (SKIP_PERMS in out.entries <==> variants != {})
      && (variants != {} ==>
          out.entries[SKIP_PERMS] == Bool(forall k :: k in variants ==> raw.entries[k] == Bool(true)))
  {
    AcceptedFieldsAreGood(t, CLI_AGENT);
    var fields := t.structs[CLI_AGENT];
    var out := Project(t, raw, Struct(CLI_AGENT)).value.entries;
    assert ProjectFields(t, raw, raw.entries.Keys, fields, true) == Ok(out);
    var variants := Matches(t, raw.entries.Keys, SKIP_PERMS);
    if variants != {} {
      var f :| f in fields && f.Included() && f.tag.name == SKIP_PERMS;
      MatchedFieldStays(t, raw, raw.entries.Keys, fields, true, f);
    }
    if SKIP_PERMS in out {
      var f, from := KeyOrigin(t, raw, raw.entries.Keys, fields, true, SKIP_PERMS);
      FailClosedMeaning(raw.entries, variants);
    }
  }

  lemma FailClosedMeaning(entries: map<string, Raw>, variants: set<string>)
    requires variants <= entries.Keys
    ensures FailClosed(entries, variants).Ok? <==> forall k :: k in variants ==> entries[k].Bool?
    ensures FailClosed(entries, variants).Ok? ==>
              FailClosed(entries, variants).value == Bool(forall k :: k in variants ==> entries[k] == Bool(true))
  {
    if FailClosed(entries, variants).Ok? {
      assert forall k :: k in variants ==> (entries[k].b <==> entries[k] == Bool(true));
    }
  }

  lemma DeclaredSkipPerms()
    ensures HasSkipPerms(CLI_AGENT_FIELDS)
  {
    FieldAt(8, Plain(SKIP_PERMS));
  }
}
