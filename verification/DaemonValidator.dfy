/** The daemon's validator: it stops at the first error. */
module DaemonValidator {
  import opened Wrappers
  import opened Text
  import opened AgentSchema

  method ValidateOptions(f: Field) returns (err: Option<string>)
    ensures err.None? <==> GoodOptions(f)
  {
    if |f.options| == 0 && !f.allowCustom {
      return Some("a select needs options (or allow_custom)");
    }
    if |f.options| > MAX_OPTIONS {
      return Some("too many options");
    }
    err := ValidateChoices(f.options);
  }

  method ValidateChoices(options: seq<string>) returns (err: Option<string>)
    ensures err.None? <==> GoodChoices(options)
  {
    var seen: set<string> := {};
    for i := 0 to |options|
      invariant GoodChoices(options[..i]) && seen == Elements(options[..i])
    {
      var o := options[i];
      assert options[..i + 1] == options[..i] + [o];
      OneMoreChoice(options[..i], o);
      err := if !ArgValue(o, MAX_OPTION_LEN) then Some("option is no argument value")
             else if o == "" then Some("options must not be empty")
             else if o in seen then Some("option is listed twice")
             else None;
      if err.Some? {
        if GoodChoices(options) {
          GoodChoicesPrefix(options, i + 1);
        }
        return;
      }
      seen := seen + {o};
    }
    assert options[..|options|] == options;
    err := None;
  }

  /** Everything Field.validate checks; a flag may still be missing here. */
  method ValidateField(lib: Lib, f: Field) returns (err: Option<string>)
    ensures err.None? <==> FieldInOrder(lib, f)
  {
    if !FieldKey(f.key) {
      return Some("key");
    }
    if f.key in RESERVED_KEYS {
      return Some("key is reserved");
    }
    if TrimSpace(f.caption) == "" {
      return Some("label is required");
    }
    if !PlainText(f.caption, MAX_LABEL_LEN) || !PlainText(f.description, MAX_DESCRIPTION_LEN) ||
        !PlainText(f.emptyLabel, MAX_LABEL_LEN) {
      return Some("text");
    }
    if f.flag != "" && !FlagShape(f.flag) {
      assert f.flag in FlagsOf(f);
      return Some("flag");
    }
    if f.falseFlag != "" {
      if f.kind != BOOL {
        return Some("false_flag only applies to bool fields");
      }
      if !FlagShape(f.falseFlag) {
        assert f.falseFlag in FlagsOf(f);
        return Some("false_flag");
      }
    }
    if lib.dangerous(f.flag) || lib.dangerous(f.falseFlag) {
      if f.kind != BOOL || !f.warning {
        return Some("a dangerous flag must be a bool field marked warning");
      }
    }
    if f.kind == SELECT {
      var bad := ValidateOptions(f);
      if bad.Some? {
        return bad;
      }
    } else if f.kind == BOOL || f.kind == TEXT {
    } else if f.kind == NUMBER {
      if !GoodBounds(f) {
        return Some("min and max");
      }
    } else {
      return Some("type");
    }
    err := ValidateRest(lib, f);
  }

  method ValidateRest(lib: Lib, f: Field) returns (err: Option<string>)
    ensures err.None? <==> KindAttributes(f) && GoodDefault(lib, f)
  {
    if f.kind != SELECT && (|f.options| > 0 || f.allowCustom) {
      return Some("options and allow_custom only apply to select fields");
    }
    if f.kind != NUMBER && (f.min.Some? || f.max.Some?) {
      return Some("min and max only apply to number fields");
    }
    if f.warning && f.kind != BOOL {
      return Some("warning only applies to bool fields");
    }
    if f.key == MODEL_KEY && f.kind != SELECT && f.kind != TEXT {
      return Some("model must be a select or a text field");
    }
    if f.default != Nil {
      var v := NormalizeValue(lib, f, f.default);
      if v.None? {
        return Some("default");
      }
      if f.warning && v.value == Bool(true) {
        return Some("a warning field must default to off");
      }
    }
    err := None;
  }

  /** Validate, then what running an arbitrary CLI from the schema requires. */
  method ValidateCustom(lib: Lib, reserved: set<string>, s: Schema) returns (err: Option<string>)
    ensures err.None? <==> ValidCustom(lib, reserved, s)
  {
    if !AgentName(s.name) {
      return Some("name");
    }
    if !PlainText(s.displayName, MAX_LABEL_LEN) || !PlainText(s.description, MAX_DESCRIPTION_LEN) {
      return Some("text");
    }
    if s.iconColor != "" && !IconColor(s.iconColor) {
      return Some("icon_color");
    }
    if |s.fields| > MAX_FIELDS {
      return Some("too many fields");
    }
    var bad := ValidateFields(lib, s.fields);
    if bad.Some? {
      return bad;
    }
    if s.name in reserved {
      return Some("is a built-in agent");
    }
    if !BinaryName(s.binary) || lib.denied(s.binary) {
      return Some("binary");
    }
    for i := 0 to |s.fields|
      invariant forall j :: 0 <= j < i ==> s.fields[j].flag != ""
    {
      if s.fields[i].flag == "" {
        return Some("field needs a flag");
      }
    }
    err := None;
  }

  method ValidateFields(lib: Lib, fields: seq<Field>) returns (err: Option<string>)
    ensures err.None? <==> FieldsInOrder(lib, fields)
  {
    var keys: set<string>, flags: set<string> := {}, {};
    for i := 0 to |fields|
      invariant FieldsInOrder(lib, fields[..i])
      invariant keys == Elements(Keys(fields[..i])) && flags == Elements(AllFlags(fields[..i]))
    {
      var bad;
      bad, keys, flags := ValidateNext(lib, fields[..i], fields[i], keys, flags);
      assert fields[..i + 1] == fields[..i] + [fields[i]];
      OneMoreField(lib, fields[..i], fields[i]);
      if bad.Some? {
        if FieldsInOrder(lib, fields) {
          PrefixInOrder(lib, fields, i + 1);
        }
        return bad;
      }
    }
    assert fields[..|fields|] == fields;
    err := None;
  }

  /** One field against the names used so far. */
  method ValidateNext(lib: Lib, ghost before: seq<Field>, f: Field, keys: set<string>, flags: set<string>)
    returns (err: Option<string>, keys': set<string>, flags': set<string>)
    requires keys == Elements(Keys(before)) && flags == Elements(AllFlags(before))
    ensures err.None? <==> FieldInOrder(lib, f) && NewNames(before, f)
    ensures err.None? ==> keys' == keys + {f.key} && flags' == flags + Elements(FlagsOf(f))
  {
    keys', flags' := keys, flags;
    err := ValidateField(lib, f);
    if err.Some? {
      return;
    }
    if f.key in keys' {
      err := Some("field is declared twice");
      return;
    }
    keys' := keys' + {f.key};
    for i := 0 to |FlagsOf(f)|
      invariant err.None?
      invariant flags' == flags + Elements(FlagsOf(f)[..i])
      invariant Distinct(FlagsOf(f)[..i]) && forall flag :: flag in FlagsOf(f)[..i] ==> flag !in flags
    {
      var flag := FlagsOf(f)[i];
      assert FlagsOf(f)[..i + 1] == FlagsOf(f)[..i] + [flag];
      if flag in flags' {
        err := Some("flag is used twice");
        return;
      }
      flags' := flags' + {flag};
    }
    assert FlagsOf(f)[..|FlagsOf(f)|] == FlagsOf(f);
  }
}
