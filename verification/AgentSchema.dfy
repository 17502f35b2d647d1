/** What an agent's options schema is, and which schemas a custom agent may have. */
module AgentSchema {
  import opened Wrappers
  import opened Numbers
  import opened Text

  /** A float64. A finite one is a whole number of units of 2 to the power -1074, the
      smallest it can hold. Comparisons with NaN are false. */
  datatype Float = Finite(units: int) | NaN | Infinite(negative: bool)

  predicate Below(a: Float, b: Float) {
    match (a, b)
    case (NaN, _) => false
    case (_, NaN) => false
    case (Finite(x), Finite(y)) => x < y
    case (Infinite(n), Infinite(m)) => n && !m
    case (Finite(_), Infinite(m)) => !m
    case (Infinite(n), Finite(_)) => n
  }

  /** The Go types a value can hold. Narrow stands for the numeric types other than
      float64, int, int64 and json.Number; Other for what is no value at all. */
  datatype Value =
    | Nil
    | Bool(b: bool)
    | Str(s: string)
    | Num(f: Float)
    | Integer(i: int)
    | JsonNumber(text: string)
    | Narrow(n: int)
    | Other

  datatype Field = Field(
    key: string,
    kind: string,
    caption: string,
    description: string,
    flag: string,
    falseFlag: string,
    options: seq<string>,
    allowCustom: bool,
    default: Value,
    emptyLabel: string,
    min: Option<Float>,
    max: Option<Float>,
    warning: bool)

  datatype Schema = Schema(
    name: string, displayName: string, description: string, iconColor: string, binary: string, fields: seq<Field>)

  /** Library code outside this model: flag names and values compared without case, the
      denylist of executables, and converting, reading and printing numbers. */
  datatype Lib = Lib(
    dangerous: string -> bool,
    bypass: string -> bool,
    denied: string -> bool,
    fromInt: int -> Float,
    readNumber: string -> Option<Float>,
    printNumber: int -> string)

  const SELECT := "select"
  const BOOL := "bool"
  const NUMBER := "number"
  const TEXT := "text"
  const MODEL_KEY := "model"

  const MAX_FIELDS := 64
  const MAX_OPTIONS := 200
  const MAX_LABEL_LEN := 128
  const MAX_DESCRIPTION_LEN := 1000
  const MAX_OPTION_LEN := 128
  const MAX_TEXT_VALUE_LEN := 512

  const RESERVED_KEYS := {
    "binary", "schema", "schema_path", "options", "prompt", "extra_flags", "execution_timeout", "review_limits"}

  predicate LowerLetter(c: char) {
    'a' <= c <= 'z'
  }

  predicate Alphanumeric(c: char) {
    'a' <= c <= 'z' || 'A' <= c <= 'Z' || IsDigit(c)
  }

  predicate AgentName(s: string) {
    && 1 <= |s| <= 32 && LowerLetter(s[0])
    && forall i :: 1 <= i < |s| ==> LowerLetter(s[i]) || IsDigit(s[i]) || s[i] == '_' || s[i] == '-'
  }

  predicate FieldKey(s: string) {
    && 1 <= |s| <= 64 && LowerLetter(s[0])
    && forall i :: 1 <= i < |s| ==> LowerLetter(s[i]) || IsDigit(s[i]) || s[i] == '_'
  }

  /** --name or -n. */
  predicate FlagShape(s: string) {
    && |s| >= 2 && s[0] == '-'
    && var body := if s[1] == '-' then s[2..] else s[1..];
      && body != "" && Alphanumeric(body[0])
      && forall i :: 0 <= i < |body| ==> Alphanumeric(body[i]) || body[i] == '-'
  }

  predicate BinaryName(s: string) {
    && 1 <= |s| <= 64 && Alphanumeric(s[0])
    && forall i :: 1 <= i < |s| ==> Alphanumeric(s[i]) || s[i] == '.' || s[i] == '_' || s[i] == '-'
  }

  predicate HexDigit(c: char) {
    IsDigit(c) || 'a' <= c <= 'f' || 'A' <= c <= 'F'
  }

  predicate IconColor(s: string) {
    |s| == 7 && s[0] == '#' && forall i :: 1 <= i < 7 ==> HexDigit(s[i])
  }

  predicate IsSpace(c: char) {
    c in [' ', '\t', '\n', '\U{000B}', '\U{000C}', '\r', '\U{0085}', '\U{00A0}', '\U{1680}', '\U{2028}', '\U{2029}',
          '\U{202F}', '\U{205F}', '\U{3000}'] || '\U{2000}' <= c <= '\U{200A}'
  }

  predicate IsControl(c: char) {
    c as int <= 0x1f || 0x7f <= c as int <= 0x9f
  }

  function TrimSpace(s: string): (r: string)
    ensures r == "" || (!IsSpace(r[0]) && !IsSpace(r[|r| - 1]))
    ensures s == "" || (!IsSpace(s[0]) && !IsSpace(s[|s| - 1])) ==> r == s
    ensures |r| <= |s|
    decreases |s|
  {
    if s == "" then s
    else if IsSpace(s[0]) then TrimSpace(s[1..])
    else if IsSpace(s[|s| - 1]) then TrimSpace(s[..|s| - 1])
    else s
  }

  predicate BeginsWithDash(s: string) {
    s != "" && s[0] == '-'
  }

  predicate HasControl(s: string) {
    exists i :: 0 <= i < |s| && IsControl(s[i])
  }

  /** A value that reaches a CLI as nothing but the value of its flag. */
  predicate ArgValue(s: string, max: int) {
    |s| <= max && !BeginsWithDash(TrimSpace(s)) && !HasControl(s)
  }

  /** A label or a description: no control characters but newlines. */
  predicate PlainText(s: string, max: int) {
    |s| <= max && forall i :: 0 <= i < |s| ==> s[i] == '\n' || !IsControl(s[i])
  }

  function ToFloat(lib: Lib, v: Value): Option<Float> {
    match v
    case Num(f) => Some(f)
    case Integer(i) => Some(lib.fromInt(i))
    case Narrow(n) => Some(lib.fromInt(n))
    case JsonNumber(text) => lib.readNumber(text)
    case _ => None
  }

  predicate InRange(f: Field, n: Float) {
    && n.Finite? && n.units >= 0
    && !(f.min.Some? && Below(n, f.min.value))
    && !(f.max.Some? && Below(f.max.value, n))
  }

  function MaxLen(f: Field): int {
    if f.kind == SELECT then MAX_OPTION_LEN else MAX_TEXT_VALUE_LEN
  }

  predicate TextAllowed(lib: Lib, f: Field, s: string) {
    && ArgValue(s, MaxLen(f))
    && !lib.bypass(s)
    && (f.kind == SELECT && s != "" && !f.allowCustom ==> s in f.options)
  }

  /** The value in its field's canonical type, or None if the field does not take it. */
  function NormalizeValue(lib: Lib, f: Field, v: Value): (r: Option<Value>)
    ensures r.Some? ==> r.value != Nil
  {
    if f.kind == BOOL then (if v.Bool? then Some(v) else None)
    else if f.kind == NUMBER then
      var n := ToFloat(lib, v);
      if n.Some? && InRange(f, n.value) then Some(Num(n.value)) else None
    else if f.kind == SELECT || f.kind == TEXT then
      if v.Str? && TextAllowed(lib, f, TrimSpace(v.s)) then Some(Str(TrimSpace(v.s))) else None
    else None
  }

  /** A canonical value is its own canonical form. */
  lemma NormalizeIsIdempotent(lib: Lib, f: Field, v: Value)
    requires NormalizeValue(lib, f, v).Some?
    ensures NormalizeValue(lib, f, NormalizeValue(lib, f, v).value) == NormalizeValue(lib, f, v)
  {
    if f.kind == SELECT || f.kind == TEXT {
      assert TrimSpace(TrimSpace(v.s)) == TrimSpace(v.s);
    }
  }

  predicate AllSpace(s: string) {
    forall i :: 0 <= i < |s| ==> IsSpace(s[i])
  }

  /** s is t between white space. */
  predicate Padded(s: string, a: string, t: string, b: string) {
    s == a + t + b && AllSpace(a) && AllSpace(b)
  }

  lemma PaddedBefore(s: string, a: string, t: string, b: string)
    requires s != "" && IsSpace(s[0]) && Padded(s[1..], a, t, b)
    ensures Padded(s, [s[0]] + a, t, b)
  {
    assert s == [s[0]] + s[1..];
    assert [s[0]] + (a + t + b) == [s[0]] + a + t + b;
  }

  lemma PaddedAfter(s: string, a: string, t: string, b: string)
    requires s != "" && IsSpace(s[|s| - 1]) && Padded(s[..|s| - 1], a, t, b)
    ensures Padded(s, a, t, b + [s[|s| - 1]])
  {
    var last := [s[|s| - 1]];
    assert s == s[..|s| - 1] + last;
    assert a + t + b + last == a + t + (b + last);
  }

  ghost predicate IsPadded(s: string, t: string) {
    exists a, b :: Padded(s, a, t, b)
  }

  lemma NothingTrimmed(s: string)
    ensures IsPadded(s, s)
  {
    assert "" + s + "" == s;
    assert Padded(s, "", s, "");
  }

  /** Only white space is trimmed, and all of it. */
  lemma {:induction false} OnlySpaceIsTrimmed(s: string)
    ensures IsPadded(s, TrimSpace(s))
    ensures TrimSpace(s) != "" ==> !IsSpace(TrimSpace(s)[0]) && !IsSpace(TrimSpace(s)[|TrimSpace(s)| - 1])
    decreases |s|
  {
    if s != "" && IsSpace(s[0]) {
      OnlySpaceIsTrimmed(s[1..]);
      var a, b :| Padded(s[1..], a, TrimSpace(s), b);
      PaddedBefore(s, a, TrimSpace(s), b);
    } else if s != "" && IsSpace(s[|s| - 1]) {
      OnlySpaceIsTrimmed(s[..|s| - 1]);
      var a, b :| Padded(s[..|s| - 1], a, TrimSpace(s), b);
      PaddedAfter(s, a, TrimSpace(s), b);
    } else {
      NothingTrimmed(s);
    }
  }

  /** The canonical form of a switch or a text is that value itself, but for white space around
      the text. */
  lemma CanonicalFormIsSame(lib: Lib, f: Field, v: Value)
    requires NormalizeValue(lib, f, v).Some? && f.kind != NUMBER
    ensures var form := NormalizeValue(lib, f, v).value;
      if v.Str? then
        && form.Str? && IsPadded(v.s, form.s)
        && (form.s != "" ==> !IsSpace(form.s[0]) && !IsSpace(form.s[|form.s| - 1]))
      else v.Bool? && form == v
  {
    if v.Str? {
      OnlySpaceIsTrimmed(v.s);
    }
  }

  /** A number of a well-made field is taken exactly if it is finite, not negative and between
      the bounds there are, and is taken as it is. */
  lemma NumbersFitExactly(lib: Lib, f: Field, v: Value)
    requires f.kind == NUMBER && GoodBounds(f)
    ensures var n := ToFloat(lib, v);
      NormalizeValue(lib, f, v) ==
      if n.Some? && n.value.Finite? && n.value.units >= 0
         && (f.min.Some? ==> f.min.value.units <= n.value.units)
         && (f.max.Some? ==> n.value.units <= f.max.value.units) then Some(Num(n.value))
      else None
  {
  }

  predicate GoodBound(b: Option<Float>) {
    b.Some? ==> b.value.Finite? && b.value.units >= 0
  }

  predicate GoodBounds(f: Field) {
    && !(f.min.Some? && f.max.Some? && Below(f.max.value, f.min.value))
    && GoodBound(f.min) && GoodBound(f.max)
  }

  ghost predicate GoodOptions(f: Field) {
    && (f.options == [] ==> f.allowCustom)
    && |f.options| <= MAX_OPTIONS
    && GoodChoices(f.options)
  }

  predicate GoodChoice(o: string) {
    o != "" && ArgValue(o, MAX_OPTION_LEN)
  }

  ghost predicate GoodChoices(options: seq<string>) {
    && (forall o :: o in options ==> GoodChoice(o))
    && Distinct(options)
  }

  lemma OneMoreChoice(before: seq<string>, o: string)
    ensures GoodChoices(before + [o]) <==> GoodChoices(before) && GoodChoice(o) && o !in before
  {
    var all := before + [o];
    DistinctConcat(before, [o]);
    assert o in all && forall x :: x in before ==> x in all;
  }

  lemma GoodChoicesPrefix(options: seq<string>, n: nat)
    requires GoodChoices(options) && n <= |options|
    ensures GoodChoices(options[..n])
  {
    forall o | o in options[..n] ensures o in options {
    }
  }

  predicate GoodTexts(f: Field) {
    && TrimSpace(f.caption) != ""
    && PlainText(f.caption, MAX_LABEL_LEN)
    && PlainText(f.description, MAX_DESCRIPTION_LEN)
    && PlainText(f.emptyLabel, MAX_LABEL_LEN)
  }

  predicate GoodDefault(lib: Lib, f: Field) {
    f.default != Nil ==>
      && NormalizeValue(lib, f, f.default).Some?
      && !(f.warning && NormalizeValue(lib, f, f.default) == Some(Bool(true)))
  }

  predicate KindAttributes(f: Field) {
    && (f.kind != SELECT ==> f.options == [] && !f.allowCustom)
    && (f.kind != NUMBER ==> f.min == None && f.max == None)
    && (f.warning ==> f.kind == BOOL)
    && (f.key == MODEL_KEY ==> f.kind == SELECT || f.kind == TEXT)
  }

  predicate Dangerous(lib: Lib, f: Field) {
    lib.dangerous(f.flag) || lib.dangerous(f.falseFlag)
  }

  /** One field, apart from its key and flags. */
  ghost predicate ValidBody(lib: Lib, f: Field) {
    && GoodTexts(f)
    && (f.falseFlag != "" ==> f.kind == BOOL)
    && (Dangerous(lib, f) ==> f.kind == BOOL && f.warning)
    && f.kind in {SELECT, BOOL, NUMBER, TEXT}
    && (f.kind == SELECT ==> GoodOptions(f))
    && (f.kind == NUMBER ==> GoodBounds(f))
    && KindAttributes(f)
    && GoodDefault(lib, f)
  }

  predicate ValidKey(key: string) {
    FieldKey(key) && key !in RESERVED_KEYS
  }

  function FlagsOf(f: Field): seq<string> {
    (if f.flag != "" then [f.flag] else []) + (if f.falseFlag != "" then [f.falseFlag] else [])
  }

  lemma FlagsOfMeaning(f: Field)
    ensures forall flag :: flag in FlagsOf(f) <==> flag != "" && (flag == f.flag || flag == f.falseFlag)
    ensures Distinct(FlagsOf(f)) <==> f.flag == "" || f.flag != f.falseFlag
  {
    if f.flag != "" && f.falseFlag != "" {
      assert FlagsOf(f) == [f.flag, f.falseFlag];
      if f.flag == f.falseFlag {
        assert FlagsOf(f)[0] == FlagsOf(f)[1];
      }
    }
  }

  function AllFlags(fields: seq<Field>): seq<string> {
    if fields == [] then [] else AllFlags(fields[..|fields| - 1]) + FlagsOf(fields[|fields| - 1])
  }

  function Keys(fields: seq<Field>): seq<string> {
    seq(|fields|, i requires 0 <= i < |fields| => fields[i].key)
  }

  /** The schemas a custom agent may have: reserved holds the names it may not take. */
  ghost predicate ValidCustom(lib: Lib, reserved: set<string>, s: Schema) {
    && AgentName(s.name) && s.name !in reserved
    && BinaryName(s.binary) && !lib.denied(s.binary)
    && PlainText(s.displayName, MAX_LABEL_LEN)
    && PlainText(s.description, MAX_DESCRIPTION_LEN)
    && (s.iconColor != "" ==> IconColor(s.iconColor))
    && |s.fields| <= MAX_FIELDS
    && ValidFields(lib, s.fields)
  }

  /** Every field has a flag, and the fields are in order. */
  ghost predicate ValidFields(lib: Lib, fields: seq<Field>) {
    FieldsInOrder(lib, fields) && forall f :: f in fields ==> f.flag != ""
  }

  ghost predicate FieldInOrder(lib: Lib, f: Field) {
    ValidKey(f.key) && ValidBody(lib, f) && forall flag :: flag in FlagsOf(f) ==> FlagShape(flag)
  }

  /** Every field is valid by itself; no key and no flag is used twice. */
  ghost predicate FieldsInOrder(lib: Lib, fields: seq<Field>) {
    && (forall f :: f in fields ==> FieldInOrder(lib, f))
    && Distinct(Keys(fields)) && Distinct(AllFlags(fields))
  }

  /** A field's key and flags are new, and its two flags differ. */
  ghost predicate NewNames(before: seq<Field>, f: Field) {
    && f.key !in Keys(before)
    && (forall flag :: flag in FlagsOf(f) ==> flag !in AllFlags(before))
    && Distinct(FlagsOf(f))
  }

  lemma DistinctConcat<T>(a: seq<T>, b: seq<T>)
    ensures Distinct(a + b) <==> Distinct(a) && Distinct(b) && forall x :: x in b ==> x !in a
  {
    var c := a + b;
    if Distinct(c) {
      forall i, j | 0 <= i < j < |a| ensures a[i] != a[j] {
        assert c[i] != c[j];
      }
      forall i, j | 0 <= i < j < |b| ensures b[i] != b[j] {
        assert c[|a| + i] != c[|a| + j];
      }
      forall i, j | 0 <= i < |a| && 0 <= j < |b| ensures a[i] != b[j] {
        assert c[i] != c[|a| + j];
      }
    } else {
      var i, j :| 0 <= i < j < |c| && c[i] == c[j];
      if j < |a| {
        assert a[i] == a[j];
      } else if i < |a| {
        assert b[j - |a|] in b && a[i] in a;
      } else {
        assert b[i - |a|] == b[j - |a|];
      }
    }
  }

  /** One more field is in order exactly when it is valid and its names are new. */
  lemma OneMoreField(lib: Lib, before: seq<Field>, f: Field)
    ensures FieldsInOrder(lib, before + [f]) <==>
            FieldsInOrder(lib, before) && FieldInOrder(lib, f) && NewNames(before, f)
    ensures AllFlags(before + [f]) == AllFlags(before) + FlagsOf(f)
    ensures Keys(before + [f]) == Keys(before) + [f.key]
  {
    assert (before + [f])[..|before|] == before;
    assert forall x :: x in before + [f] <==> x in before || x == f;
    assert Keys(before + [f]) == Keys(before) + [f.key];
    DistinctConcat(AllFlags(before), FlagsOf(f));
    DistinctConcat(Keys(before), [f.key]);
  }

  lemma {:induction false} PrefixInOrder(lib: Lib, fields: seq<Field>, n: nat)
    requires FieldsInOrder(lib, fields) && n <= |fields|
    ensures FieldsInOrder(lib, fields[..n])
    decreases |fields| - n
  {
    if n < |fields| {
      PrefixInOrder(lib, fields, n + 1);
      assert fields[..n + 1] == fields[..n] + [fields[n]];
      OneMoreField(lib, fields[..n], fields[n]);
    } else {
      assert fields[..n] == fields;
    }
  }
}
