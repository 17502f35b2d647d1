/** The CLI's validator: it collects every problem, so that a form can show them all; and
    where its verdict and the daemon's part. */
module CliValidator {
  import opened Wrappers
  import opened Text
  import opened AgentSchema
  import DaemonValidator

  /** The CLI reads fewer numeric types than the daemon. */
  function ToFloat(lib: Lib, v: Value): Option<Float> {
    match v
    case Num(f) => Some(f)
    case Integer(i) => Some(lib.fromInt(i))
    case JsonNumber(text) => lib.readNumber(text)
    case _ => None
  }

  /** The first thing wrong with the default, as text; empty when it is fine. */
  function DefaultProblem(lib: Lib, f: Field): string {
    if f.kind == BOOL then (if f.default.Bool? then "" else "must be true or false")
    else if f.kind == NUMBER then
      var n := ToFloat(lib, f.default);
      if n.None? then "must be a number"
      else if !n.value.Finite? then "must be a finite number"
      else if n.value.units < 0 then "must not be negative"
      else if f.min.Some? && Below(n.value, f.min.value) then "is below the minimum"
      else if f.max.Some? && Below(f.max.value, n.value) then "is above the maximum"
      else ""
    else if f.kind == SELECT || f.kind == TEXT then
      if !f.default.Str? then "must be a string"
      else
        var v := TrimSpace(f.default.s);
        if !ArgValue(v, MaxLen(f)) then "is no argument value"
        else if lib.bypass(v) then "is never passed to an agent"
        else if f.kind == SELECT && v != "" && !f.allowCustom && v !in f.options then "is not one of the options"
        else ""
    else ""
  }

  /** A number default of a type only the daemon reads. */
  predicate NarrowDefault(f: Field) {
    f.kind == NUMBER && f.default.Narrow?
  }

  lemma DefaultsAgree(lib: Lib, f: Field)
    requires f.default != Nil && f.kind in {SELECT, BOOL, NUMBER, TEXT}
    ensures DefaultProblem(lib, f) == "" <==> NormalizeValue(lib, f, f.default).Some? && !NarrowDefault(f)
  {
  }

  /** The choices of a dropdown. */
  method ChoiceProblems(options: seq<string>) returns (errs: seq<string>)
    ensures errs == [] <==> GoodChoices(options)
  {
    errs := [];
    var seen: set<string> := {};
    for i := 0 to |options|
      invariant errs == [] <==> GoodChoices(options[..i])
      invariant seen == Elements(options[..i])
    {
      var o := options[i];
      assert options[..i + 1] == options[..i] + [o];
      OneMoreChoice(options[..i], o);
      if o == "" {
        errs := errs + ["choices must not be empty"];
      } else if !ArgValue(o, MAX_OPTION_LEN) {
        errs := errs + ["choice is no argument value"];
      } else if o in seen {
        errs := errs + ["choice is listed twice"];
      }
      seen := seen + {o};
    }
    assert options[..|options|] == options;
  }

  method TextProblems(f: Field) returns (errs: seq<string>)
    ensures errs == [] <==> GoodTexts(f)
  {
    errs := [];
    if TrimSpace(f.caption) == "" {
      errs := errs + ["label is required"];
    } else if !PlainText(f.caption, MAX_LABEL_LEN) {
      errs := errs + ["label"];
    }
    if !PlainText(f.description, MAX_DESCRIPTION_LEN) {
      errs := errs + ["description"];
    }
    if !PlainText(f.emptyLabel, MAX_LABEL_LEN) {
      errs := errs + ["empty label"];
    }
  }

  method KindProblems(f: Field) returns (errs: seq<string>)
    ensures errs == [] <==>
      && f.kind in {SELECT, BOOL, NUMBER, TEXT}
      && (f.kind == SELECT ==> GoodOptions(f)) && (f.kind == NUMBER ==> GoodBounds(f))
  {
    errs := [];
    if f.kind == SELECT {
      if |f.options| == 0 && !f.allowCustom {
        errs := errs + ["a dropdown needs options"];
      }
      if |f.options| > MAX_OPTIONS {
        errs := errs + ["too many choices"];
      }
      var choices := ChoiceProblems(f.options);
      errs := errs + choices;
    } else if f.kind == BOOL || f.kind == TEXT {
    } else if f.kind == NUMBER {
      if f.min.Some? && f.max.Some? && Below(f.max.value, f.min.value) {
        errs := errs + ["min is above max"];
      }
      if !GoodBound(f.min) || !GoodBound(f.max) {
        errs := errs + ["min and max must be finite and not negative"];
      }
    } else {
      errs := errs + ["type must be select, bool, number or text"];
    }
  }

  method AttributeProblems(f: Field) returns (errs: seq<string>)
    ensures errs == [] <==> KindAttributes(f)
  {
    errs := [];
    if f.kind != SELECT && (|f.options| > 0 || f.allowCustom) {
      errs := errs + ["choices and allow_custom only apply to a dropdown (select)"];
    }
    if f.kind != NUMBER && (f.min.Some? || f.max.Some?) {
      errs := errs + ["min and max only apply to a number"];
    }
    if f.warning && f.kind != BOOL {
      errs := errs + ["warning only applies to a toggle (bool)"];
    }
    if f.key == MODEL_KEY && f.kind != SELECT && f.kind != TEXT {
      errs := errs + ["model must be a dropdown (select) or text"];
    }
  }

  /** What the daemon would refuse in one field, besides its key and flags. */
  method Problems(lib: Lib, f: Field) returns (errs: seq<string>)
    ensures errs == [] <==> ValidBody(lib, f) && !NarrowDefault(f)
  {
    errs := TextProblems(f);
    if f.falseFlag != "" && f.kind != BOOL {
      errs := errs + ["a false flag only applies to a toggle (bool)"];
    }
    if (lib.dangerous(f.flag) || lib.dangerous(f.falseFlag)) && (f.kind != BOOL || !f.warning) {
      errs := errs + ["a dangerous flag must be a toggle (bool) marked warning"];
    }
    var kinds := KindProblems(f);
    var attributes := AttributeProblems(f);
    errs := errs + kinds + attributes;
    if f.default != Nil {
      if f.kind in {SELECT, BOOL, NUMBER, TEXT} {
        DefaultsAgree(lib, f);
      }
      if DefaultProblem(lib, f) != "" {
        errs := errs + ["default: " + DefaultProblem(lib, f)];
      } else if f.warning && f.default == Bool(true) {
        errs := errs + ["a warning toggle must default to off"];
      }
    }
  }

  /** What the CLI finds valid: the same, but for number defaults it cannot read. */
  ghost predicate CliValidFields(lib: Lib, fields: seq<Field>) {
    ValidFields(lib, fields) && forall f :: f in fields ==> !NarrowDefault(f)
  }

  lemma OneMoreCliField(lib: Lib, before: seq<Field>, f: Field)
    ensures CliValidFields(lib, before + [f]) <==>
      && CliValidFields(lib, before)
      && FieldInOrder(lib, f) && f.flag != "" && !NarrowDefault(f) && NewNames(before, f)
  {
    OneMoreField(lib, before, f);
    assert forall x :: x in before + [f] <==> x in before || x == f;
  }

  /** The flags of one field, against those used so far. */
  method FlagProblems(f: Field, flags: set<string>) returns (errs: seq<string>, flags': set<string>)
    ensures errs == [] <==>
      && f.flag != "" && Distinct(FlagsOf(f))
      && forall flag :: flag in FlagsOf(f) ==> FlagShape(flag) && flag !in flags
    ensures errs == [] ==> flags' == flags + Elements(FlagsOf(f))
  {
    FlagsOfMeaning(f);
    errs, flags' := [], flags;
    if !FlagShape(f.flag) {
      errs := errs + ["flags must look like --name or -n"];
    } else if f.flag in flags' {
      errs := errs + ["flag is used twice"];
    }
    flags' := flags' + {f.flag};
    if f.falseFlag != "" {
      if !FlagShape(f.falseFlag) {
        errs := errs + ["flags must look like --name or -n"];
      } else if f.falseFlag in flags' {
        errs := errs + ["flag is used twice"];
      }
      flags' := flags' + {f.falseFlag};
    }
  }

  method FieldsProblems(lib: Lib, fields: seq<Field>) returns (errs: seq<string>)
    ensures errs == [] <==> CliValidFields(lib, fields)
  {
    errs := [];
    var keys: set<string>, flags: set<string> := {}, {};
    for i := 0 to |fields|
      invariant errs == [] <==> CliValidFields(lib, fields[..i])
      invariant errs == [] ==> keys == Elements(Keys(fields[..i])) && flags == Elements(AllFlags(fields[..i]))
    {
      var f := fields[i];
      assert fields[..i + 1] == fields[..i] + [f];
      OneMoreCliField(lib, fields[..i], f);
      OneMoreField(lib, fields[..i], f);
      var key := if !FieldKey(f.key) then ["key must be lowercase letters, digits or '_'"]
                 else if f.key in RESERVED_KEYS then ["key is reserved"]
                 else if f.key in keys then ["key is used twice"]
                 else [];
      keys := keys + {f.key};
      var flagErrs;
      flagErrs, flags := FlagProblems(f, flags);
      var body := Problems(lib, f);
      errs := errs + key + flagErrs + body;
    }
    assert fields[..|fields|] == fields;
  }

  method ValidateCustom(lib: Lib, reserved: set<string>, s: Schema) returns (errs: seq<string>)
    ensures errs == [] <==> ValidCustom(lib, reserved, s) && forall f :: f in s.fields ==> !NarrowDefault(f)
  {
    errs := [];
    if !AgentName(s.name) {
      errs := errs + ["name"];
    } else if s.name in reserved {
      errs := errs + ["name is a built-in agent"];
    }
    if !BinaryName(s.binary) {
      errs := errs + ["binary"];
    } else if lib.denied(s.binary) {
      errs := errs + ["binary is a shell or an interpreter"];
    }
    if !PlainText(s.displayName, MAX_LABEL_LEN) {
      errs := errs + ["display name"];
    }
    if !PlainText(s.description, MAX_DESCRIPTION_LEN) {
      errs := errs + ["description"];
    }
    if s.iconColor != "" && !IconColor(s.iconColor) {
      errs := errs + ["icon color"];
    }
    if |s.fields| > MAX_FIELDS {
      errs := errs + ["too many fields"];
    }
    var fields := FieldsProblems(lib, s.fields);
    errs := errs + fields;
  }

  /** The two validators give the same verdict exactly when no default stands in their way:
      a schema that is not valid fails both, and a valid one only the CLI, and only if a
      number default is of a type the CLI does not read. JSON has no such type. */
  method BothVerdicts(lib: Lib, reserved: set<string>, s: Schema) returns (daemon: Option<string>, cli: seq<string>)
    ensures cli == [] ==> daemon.None?
    ensures (forall f :: f in s.fields ==> !NarrowDefault(f)) ==> (cli == [] <==> daemon.None?)
    ensures (cli == [] <==> daemon.None?) <==>
            !(ValidCustom(lib, reserved, s) && exists f :: f in s.fields && NarrowDefault(f))
  {
    daemon := DaemonValidator.ValidateCustom(lib, reserved, s);
    cli := ValidateCustom(lib, reserved, s);
  }
}
