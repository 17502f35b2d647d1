/** A custom agent's values as command-line arguments, and how they are read back. */
module Argv {
  import opened Wrappers
  import opened Numbers
  import opened Text
  import opened AgentSchema

  predicate HasField(fields: seq<Field>, key: string) {
    exists i :: 0 <= i < |fields| && fields[i].key == key
  }

  /** The first field with the key. */
  function FieldWith(fields: seq<Field>, key: string): (f: Field)
    requires HasField(fields, key)
    ensures f in fields && f.key == key
  {
    if fields[0].key == key then fields[0] else FieldWith(fields[1..], key)
  }

  /** The canonical form of one value, or None if its key or the value itself is refused. */
  function ValidateValue(lib: Lib, fields: seq<Field>, key: string, v: Value): Option<Value> {
    if HasField(fields, key) then NormalizeValue(lib, FieldWith(fields, key), v) else None
  }

  ghost predicate ValuesFit(lib: Lib, fields: seq<Field>, values: map<string, Value>) {
    forall k :: k in values ==> ValidateValue(lib, fields, k, values[k]).Some?
  }

  ghost predicate Normalised(lib: Lib, fields: seq<Field>, values: map<string, Value>, done: map<string, Value>) {
    forall k :: k in done ==> k in values && ValidateValue(lib, fields, k, values[k]) == Some(done[k])
  }

  /** Checks every value and returns them in their canonical types; a key the schema does
      not declare is refused. */
  method ValidateValues(lib: Lib, fields: seq<Field>, values: map<string, Value>)
      returns (out: Option<map<string, Value>>)
    ensures out.Some? <==> ValuesFit(lib, fields, values)
    ensures out.Some? ==> out.value.Keys == values.Keys
    ensures out.Some? ==> Normalised(lib, fields, values, out.value)
  {
    var done: map<string, Value> := map[];
    var keys := SortedKeys(values);
    assert Elements(keys[..0]) == {};
    for i := 0 to |keys|
      invariant done.Keys == Elements(keys[..i])
      invariant Normalised(lib, fields, values, done)
    {
      var key := keys[i];
      assert key in values;
      var v := ValidateValue(lib, fields, key, values[key]);
      if v.None? {
        MisfitFound(lib, fields, values, key);
        return None;
      }
      ElementsOneMore(keys, i);
      NormalisedOneMore(lib, fields, values, done, key, v.value);
      done := done[key := v.value];
    }
    assert keys[..|keys|] == keys;
    NormalisedFits(lib, fields, values, done);
    out := Some(done);
  }

  lemma MisfitFound(lib: Lib, fields: seq<Field>, values: map<string, Value>, key: string)
    requires key in values && ValidateValue(lib, fields, key, values[key]).None?
    ensures !ValuesFit(lib, fields, values)
  {
  }

  lemma NormalisedOneMore(lib: Lib, fields: seq<Field>, values: map<string, Value>, done: map<string, Value>,
                          key: string, v: Value)
    requires Normalised(lib, fields, values, done) && key in values &&
            ValidateValue(lib, fields, key, values[key]) == Some(v)
    ensures Normalised(lib, fields, values, done[key := v])
  {
  }

  lemma NormalisedFits(lib: Lib, fields: seq<Field>, values: map<string, Value>, done: map<string, Value>)
    requires Normalised(lib, fields, values, done) && done.Keys == values.Keys
    ensures ValuesFit(lib, fields, values)
  {
    forall k | k in values ensures ValidateValue(lib, fields, k, values[k]).Some? {
      assert k in done;
    }
  }

  method SortedKeys(values: map<string, Value>) returns (keys: seq<string>)
    ensures Sorted(keys) && Elements(keys) == values.Keys
    ensures forall i :: 0 <= i < |keys| ==> keys[i] in values
  {
    var unsorted := MapKeys(values);
    keys := Sort(unsorted);
    PermutationKeepsElements(unsorted, keys);
    assert forall k :: k in keys <==> k in Elements(keys);
  }

  /** The operator's value when set, the field's default otherwise. */
  function Effective(f: Field, values: map<string, Value>): Value {
    if f.key in values && values[f.key] != Nil then values[f.key] else f.default
  }

  /** The arguments one canonical value becomes. */
  function Rendered(lib: Lib, f: Field, v: Value): seq<string> {
    match v
    case Bool(b) =>
      if b then (if f.flag != "" then [f.flag] else [])
      else if f.falseFlag != "" then [f.falseFlag] else []
    case Num(n) => if n.Finite? && n.units != 0 && f.flag != "" then [f.flag, lib.printNumber(n.units)] else []
    case Str(s) => if s != "" && f.flag != "" then [f.flag, s] else []
    case _ => []
  }

  function FieldArgs(lib: Lib, f: Field, values: map<string, Value>): Option<seq<string>> {
    var raw := Effective(f, values);
    if raw == Nil then Some([])
    else
      var v := NormalizeValue(lib, f, raw);
      if v.None? then None else Some(Rendered(lib, f, v.value))
  }

  function Args(lib: Lib, fields: seq<Field>, values: map<string, Value>): Option<seq<string>> {
    if fields == [] then Some([])
    else
      var first := FieldArgs(lib, fields[0], values);
      var rest := Args(lib, fields[1..], values);
      if first.Some? && rest.Some? then Some(first.value + rest.value) else None
  }

  function Both(a: Option<seq<string>>, b: Option<seq<string>>): Option<seq<string>> {
    if a.Some? && b.Some? then Some(a.value + b.value) else None
  }

  lemma BothIsAssociative(a: Option<seq<string>>, b: Option<seq<string>>, c: Option<seq<string>>)
    ensures Both(a, Both(b, c)) == Both(Both(a, b), c)
    ensures Both(a, Some([])) == Both(Some([]), a) == a
  {
    if a.Some? && b.Some? && c.Some? {
      assert a.value + (b.value + c.value) == a.value + b.value + c.value;
    }
    if a.Some? {
      assert a.value + [] == a.value == [] + a.value;
    }
  }

  lemma ArgsCons(lib: Lib, f: Field, rest: seq<Field>, values: map<string, Value>)
    ensures Args(lib, [f] + rest, values) == Both(FieldArgs(lib, f, values), Args(lib, rest, values))
  {
    assert ([f] + rest)[1..] == rest;
  }

  lemma {:induction false} ArgsSnoc(lib: Lib, fields: seq<Field>, f: Field, values: map<string, Value>)
    ensures Args(lib, fields + [f], values) == Both(Args(lib, fields, values), FieldArgs(lib, f, values))
  {
    var one := FieldArgs(lib, f, values);
    BothIsAssociative(one, one, one);
    if fields == [] {
      ArgsCons(lib, f, [], values);
      assert [] + [f] == [f] + [];
    } else {
      var head, tail := fields[0], fields[1..];
      ArgsSnoc(lib, tail, f, values);
      ArgsCons(lib, head, tail + [f], values);
      ArgsCons(lib, head, tail, values);
      BothIsAssociative(FieldArgs(lib, head, values), Args(lib, tail, values), one);
      assert fields == [head] + tail && fields + [f] == [head] + (tail + [f]);
    }
  }

  lemma ArgsSplit(lib: Lib, fields: seq<Field>, values: map<string, Value>, n: nat)
    requires n < |fields|
    ensures Args(lib, fields[..n + 1], values) ==
            Both(Args(lib, fields[..n], values), FieldArgs(lib, fields[n], values))
  {
    assert fields[..n + 1] == fields[..n] + [fields[n]];
    ArgsSnoc(lib, fields[..n], fields[n], values);
  }

  lemma {:induction false} ArgsFail(lib: Lib, fields: seq<Field>, values: map<string, Value>, n: nat)
    requires n < |fields| && FieldArgs(lib, fields[n], values).None?
    ensures Args(lib, fields, values).None?
  {
    if n > 0 {
      ArgsFail(lib, fields[1..], values, n - 1);
    }
  }

  method BuildArgs(lib: Lib, fields: seq<Field>, values: map<string, Value>) returns (args: Option<seq<string>>)
    ensures args == Args(lib, fields, values)
  {
    var out: seq<string> := [];
    for i := 0 to |fields|
      invariant Args(lib, fields[..i], values) == Some(out)
    {
      ArgsSplit(lib, fields, values, i);
      var f := fields[i];
      var raw := Effective(f, values);
      if raw == Nil {
        assert out + [] == out;
        continue;
      }
      var v := NormalizeValue(lib, f, raw);
      if v.None? {
        ArgsFail(lib, fields, values, i);
        return None;
      }
      out := out + Rendered(lib, f, v.value);
    }
    assert fields[..|fields|] == fields;
    args := Some(out);
  }

  /** A field's canonical effective value, or None when it is not set: nothing, "", 0, or
      an off switch without a flag to turn it off. */
  function SetValue(lib: Lib, f: Field, values: map<string, Value>): Option<Value> {
    var raw := Effective(f, values);
    var v := if raw == Nil then None else NormalizeValue(lib, f, raw);
    if v.None? || Rendered(lib, f, v.value) == [] then None else v
  }

  /** What is set, by key. */
  function SetValues(lib: Lib, fields: seq<Field>, values: map<string, Value>): map<string, Value> {
    if fields == [] then map[]
    else
      var rest := SetValues(lib, fields[1..], values);
      var v := SetValue(lib, fields[0], values);
      if v.Some? then rest[fields[0].key := v.value] else rest
  }

  /** "Not set" is exactly what the documentation says it is. */
  lemma NotSetExactly(lib: Lib, fields: seq<Field>, f: Field, values: map<string, Value>)
    requires ValidFields(lib, fields) && f in fields && FieldArgs(lib, f, values).Some?
    ensures SetValue(lib, f, values).None? <==>
            || Effective(f, values) == Nil
            || NormalizeValue(lib, f, Effective(f, values)) == Some(Str(""))
            || NormalizeValue(lib, f, Effective(f, values)) == Some(Num(Finite(0)))
            || (NormalizeValue(lib, f, Effective(f, values)) == Some(Bool(false)) && f.falseFlag == "")
  {
  }

  predicate Takes(f: Field, arg: string) {
    arg != "" && (arg == f.flag || arg == f.falseFlag)
  }

  /** Reads arguments back, knowing only the schema: each flag names its field, and the
      flag of a field that is no switch is followed by its value. */
  ghost function Decode(lib: Lib, read: string -> int, fields: seq<Field>, args: seq<string>): map<string, Value>
    decreases |args|
  {
    if args == [] then map[]
    else if exists f :: f in fields && Takes(f, args[0]) then
      var f :| f in fields && Takes(f, args[0]);
      if f.kind == BOOL then Decode(lib, read, fields, args[1..])[f.key := Bool(args[0] == f.flag)]
      else if |args| < 2 then map[]
      else
        Decode(lib, read, fields, args[2..])
          [f.key := if f.kind == NUMBER then Num(Finite(read(args[1]))) else Str(args[1])]
    else Decode(lib, read, fields, args[1..])
  }

  /** Printing is injective, with a reader to show it, and what is printed starts with a digit. */
  ghost predicate Prints(lib: Lib, read: string -> int) {
    forall n :: n >= 0 ==>
      lib.printNumber(n) != "" && IsDigit(lib.printNumber(n)[0]) && read(lib.printNumber(n)) == n
  }

  /** Plain decimal printing has that property. */
  lemma DecimalPrints(lib: Lib)
    requires forall n :: n >= 0 ==> lib.printNumber(n) == Digits(n)
    ensures Prints(lib, s => if AllDigits(s) then Decimal(s) else 0)
  {
    forall n | n >= 0 ensures Decimal(Digits(n)) == n {
      DecimalOfDigits(n);
    }
  }

  lemma {:induction false} FlagsOfEarlierFieldDiffer(fields: seq<Field>, i: nat, j: nat, arg: string)
    requires Distinct(AllFlags(fields)) && i < j < |fields| && Takes(fields[i], arg)
    ensures !Takes(fields[j], arg)
    decreases |fields|
  {
    var before, last := fields[..|fields| - 1], fields[|fields| - 1];
    DistinctConcat(AllFlags(before), FlagsOf(last));
    if j < |before| {
      FlagsOfEarlierFieldDiffer(before, i, j, arg);
    } else {
      assert fields[i] == before[i] && fields[j] == last;
      FlagsAreListed(before, before[i]);
      FlagsOfMeaning(before[i]);
      FlagsOfMeaning(last);
      assert arg in FlagsOf(before[i]) && arg in AllFlags(before);
    }
  }

  /** Only one field takes a flag. */
  lemma FlagNamesField(fields: seq<Field>, f: Field, g: Field, arg: string)
    requires Distinct(AllFlags(fields)) && f in fields && g in fields && Takes(f, arg) && Takes(g, arg)
    ensures f == g
  {
    var i :| 0 <= i < |fields| && fields[i] == f;
    var j :| 0 <= j < |fields| && fields[j] == g;
    if i < j {
      FlagsOfEarlierFieldDiffer(fields, i, j, arg);
    } else if j < i {
      FlagsOfEarlierFieldDiffer(fields, j, i, arg);
    }
  }

  lemma {:induction false} FlagsAreListed(fields: seq<Field>, f: Field)
    requires f in fields
    ensures forall flag :: flag in FlagsOf(f) ==> flag in AllFlags(fields)
    decreases |fields|
  {
    var before, last := fields[..|fields| - 1], fields[|fields| - 1];
    assert fields == before + [last];
    if f in before {
      FlagsAreListed(before, f);
    }
  }

  /** Reading the arguments of one field gives its value and leaves the rest. */
  lemma DecodeOneField(lib: Lib, read: string -> int, fields: seq<Field>, f: Field, v: Value, rest: seq<string>)
    requires ValidFields(lib, fields) && Prints(lib, read) && f in fields
    requires NormalizeValue(lib, f, v) == Some(v)
    ensures Decode(lib, read, fields, Rendered(lib, f, v) + rest) ==
            if Rendered(lib, f, v) == [] then Decode(lib, read, fields, rest)
            else Decode(lib, read, fields, rest)[f.key := v]
  {
    var own := Rendered(lib, f, v);
    var args := own + rest;
    if own == [] {
      assert args == rest;
    } else {
      assert Takes(f, args[0]);
      var g :| g in fields && Takes(g, args[0]);
      FlagNamesField(fields, f, g, args[0]);
      assert args[|own|..] == rest;
      DecodeHead(lib, read, fields, f, args);
      if f.kind == BOOL {
        SwitchFlagsDiffer(fields, f);
      }
    }
  }

  lemma {:induction false} SwitchFlagsDiffer(fields: seq<Field>, f: Field)
    requires Distinct(AllFlags(fields)) && f in fields
    ensures f.flag == "" || f.flag != f.falseFlag
    decreases |fields|
  {
    var before, last := fields[..|fields| - 1], fields[|fields| - 1];
    assert fields == before + [last];
    DistinctConcat(AllFlags(before), FlagsOf(last));
    if f in before {
      SwitchFlagsDiffer(before, f);
    } else {
      FlagsOfMeaning(last);
    }
  }

  lemma DecodeHead(lib: Lib, read: string -> int, fields: seq<Field>, f: Field, args: seq<string>)
    requires FieldsInOrder(lib, fields) && f in fields && args != [] && Takes(f, args[0])
    ensures Decode(lib, read, fields, args) ==
            if f.kind == BOOL then Decode(lib, read, fields, args[1..])[f.key := Bool(args[0] == f.flag)]
            else if |args| < 2 then map[]
            else
              var v := if f.kind == NUMBER then Num(Finite(read(args[1]))) else Str(args[1]);
              Decode(lib, read, fields, args[2..])[f.key := v]
  {
    forall g | g in fields && Takes(g, args[0]) ensures g == f {
      FlagNamesField(fields, f, g, args[0]);
    }
  }

  lemma {:induction false} SetKeysAreFieldKeys(lib: Lib, fields: seq<Field>, values: map<string, Value>)
    ensures forall k :: k in SetValues(lib, fields, values) ==> k in Keys(fields)
  {
    if fields != [] {
      SetKeysAreFieldKeys(lib, fields[1..], values);
      assert forall k :: k in Keys(fields[1..]) ==> k in Keys(fields) by {
        forall k | k in Keys(fields[1..]) ensures k in Keys(fields) {
          var i :| 0 <= i < |fields[1..]| && Keys(fields[1..])[i] == k;
          assert Keys(fields)[i + 1] == k;
        }
      }
      assert Keys(fields)[0] == fields[0].key;
    }
  }

  /** Reading back what a run of the schema's fields printed recovers what is set. */
  lemma {:induction false} DecodeRun(lib: Lib, read: string -> int, fields: seq<Field>, n: nat,
                                     values: map<string, Value>)
    requires ValidFields(lib, fields) && Prints(lib, read) && n <= |fields|
    requires Args(lib, fields[n..], values).Some?
    ensures Decode(lib, read, fields, Args(lib, fields[n..], values).value) == SetValues(lib, fields[n..], values)
    decreases |fields| - n
  {
    if n < |fields| {
      var f := fields[n];
      assert fields[n..][0] == f && fields[n..][1..] == fields[n + 1..];
      DecodeRun(lib, read, fields, n + 1, values);
      var raw := Effective(f, values);
      var rest := Args(lib, fields[n + 1..], values).value;
      if raw == Nil {
        assert [] + rest == rest;
      } else {
        NormalizeIsIdempotent(lib, f, raw);
        DecodeOneField(lib, read, fields, f, NormalizeValue(lib, f, raw).value, rest);
      }
    }
  }

  lemma {:induction false} ArgsNeverFail(lib: Lib, fields: seq<Field>, values: map<string, Value>)
    requires forall f :: f in fields ==>
               Effective(f, values) == Nil || NormalizeValue(lib, f, Effective(f, values)).Some?
    ensures Args(lib, fields, values).Some?
  {
    if fields != [] {
      assert fields[0] in fields && forall f :: f in fields[1..] ==> f in fields;
      ArgsNeverFail(lib, fields[1..], values);
    }
  }

  lemma DistinctKeyNamesField(fields: seq<Field>, f: Field)
    requires Distinct(Keys(fields)) && f in fields
    ensures HasField(fields, f.key) && FieldWith(fields, f.key) == f
  {
    var i :| 0 <= i < |fields| && fields[i] == f;
    var g := FieldWith(fields, f.key);
    var j :| 0 <= j < |fields| && fields[j] == g;
    assert Keys(fields)[i] == Keys(fields)[j];
  }

  /** For a custom agent's schema and values it accepts, building the arguments never
      fails, and reading them back yields exactly what is set. */
  lemma ArgsAreDecodable(lib: Lib, read: string -> int, reserved: set<string>, s: Schema, values: map<string, Value>)
    requires ValidCustom(lib, reserved, s) && Prints(lib, read) && ValuesFit(lib, s.fields, values)
    ensures Args(lib, s.fields, values).Some?
    ensures Decode(lib, read, s.fields, Args(lib, s.fields, values).value) == SetValues(lib, s.fields, values)
  {
    forall f | f in s.fields
      ensures Effective(f, values) == Nil || NormalizeValue(lib, f, Effective(f, values)).Some?
    {
      EffectiveFits(lib, s.fields, values, f);
    }
    ArgsNeverFail(lib, s.fields, values);
    assert s.fields[0..] == s.fields;
    DecodeRun(lib, read, s.fields, 0, values);
  }

  /** A value that counts as not given: "", 0, or off where no flag says so. */
  predicate Void(f: Field, v: Value) {
    v == Str("") || v == Num(Finite(0)) || (v == Bool(false) && f.falseFlag == "")
  }

  /** Read back, the field has the canonical form of this value, or nothing if that is void. */
  predicate Carries(lib: Lib, f: Field, raw: Value, read: map<string, Value>) {
    && NormalizeValue(lib, f, raw).Some?
    && var v := NormalizeValue(lib, f, raw).value;
    if Void(f, v) then f.key !in read else f.key in read && read[f.key] == v
  }

  /** Read back, the field has the operator's value if there is one, else its default, if any. */
  predicate Reads(lib: Lib, f: Field, values: map<string, Value>, read: map<string, Value>) {
    if f.key in values && values[f.key] != Nil then Carries(lib, f, values[f.key], read)
    else if f.default == Nil then f.key !in read
    else Carries(lib, f, f.default, read)
  }

  lemma VoidRendersNothing(lib: Lib, f: Field, raw: Value)
    requires NormalizeValue(lib, f, raw).Some? && f.flag != ""
    ensures Rendered(lib, f, NormalizeValue(lib, f, raw).value) == [] <==> Void(f, NormalizeValue(lib, f, raw).value)
  {
  }

  lemma SetIsRead(lib: Lib, f: Field, values: map<string, Value>, read: map<string, Value>)
    requires f.flag != ""
    requires Effective(f, values) == Nil || NormalizeValue(lib, f, Effective(f, values)).Some?
    requires if SetValue(lib, f, values).Some? then f.key in read && read[f.key] == SetValue(lib, f, values).value
            else f.key !in read
    ensures Reads(lib, f, values, read)
  {
    if Effective(f, values) != Nil {
      VoidRendersNothing(lib, f, Effective(f, values));
    }
  }

  lemma {:induction false} SetValuesListEach(lib: Lib, fields: seq<Field>, values: map<string, Value>, f: Field)
    requires Distinct(Keys(fields)) && f in fields
    ensures var all := SetValues(lib, fields, values);
      SetValue(lib, f, values) == if f.key in all then Some(all[f.key]) else None
  {
    HeadKeyIsNew(lib, fields, values);
    SetValueIsListed(lib, fields, values);
    if f != fields[0] {
      assert f in fields[1..];
      SetValuesListEach(lib, fields[1..], values, f);
      LaterKeyDiffers(fields, f);
    }
  }

  lemma LaterKeyDiffers(fields: seq<Field>, f: Field)
    requires fields != [] && Distinct(Keys(fields)) && f in fields[1..]
    ensures f.key != fields[0].key
  {
    var i :| 0 <= i < |fields[1..]| && fields[1..][i] == f;
    assert Keys(fields)[i + 1] == f.key && Keys(fields)[0] == fields[0].key;
  }

  /** For a custom agent's schema and values it accepts, reading the arguments back gives each
      field the operator's value where there is one, and its default otherwise; and nothing
      but fields. */
  lemma OperatorsValueWins(lib: Lib, read: string -> int, reserved: set<string>, s: Schema, values: map<string, Value>)
    requires ValidCustom(lib, reserved, s) && Prints(lib, read) && ValuesFit(lib, s.fields, values)
    ensures Args(lib, s.fields, values).Some?
    ensures var decoded := Decode(lib, read, s.fields, Args(lib, s.fields, values).value);
      && (forall f :: f in s.fields ==> Reads(lib, f, values, decoded))
      && forall k :: k in decoded ==> k in Keys(s.fields)
  {
    ArgsAreDecodable(lib, read, reserved, s, values);
    SetKeysAreFieldKeys(lib, s.fields, values);
    var decoded := SetValues(lib, s.fields, values);
    forall f | f in s.fields ensures Reads(lib, f, values, decoded) {
      EffectiveFits(lib, s.fields, values, f);
      SetValuesListEach(lib, s.fields, values, f);
      SetIsRead(lib, f, values, decoded);
    }
  }

  lemma EffectiveFits(lib: Lib, fields: seq<Field>, values: map<string, Value>, f: Field)
    requires ValidFields(lib, fields) && ValuesFit(lib, fields, values) && f in fields
    ensures Effective(f, values) == Nil || NormalizeValue(lib, f, Effective(f, values)).Some?
  {
    if f.key in values && values[f.key] != Nil {
      DistinctKeyNamesField(fields, f);
      assert ValidateValue(lib, fields, f.key, values[f.key]).Some?;
    }
  }

  /** Two sets of values become the same arguments exactly when they set the same. */
  lemma ArgsDetermineValues(lib: Lib, read: string -> int, reserved: set<string>, s: Schema,
                            a: map<string, Value>, b: map<string, Value>)
    requires ValidCustom(lib, reserved, s) && Prints(lib, read)
    requires ValuesFit(lib, s.fields, a) && ValuesFit(lib, s.fields, b)
    ensures Args(lib, s.fields, a) == Args(lib, s.fields, b) <==>
            SetValues(lib, s.fields, a) == SetValues(lib, s.fields, b)
  {
    ArgsAreDecodable(lib, read, reserved, s, a);
    ArgsAreDecodable(lib, read, reserved, s, b);
    if SetValues(lib, s.fields, a) == SetValues(lib, s.fields, b) {
      SameSetSameArgs(lib, s.fields, a, b);
    }
  }

  lemma HeadKeyIsNew(lib: Lib, fields: seq<Field>, values: map<string, Value>)
    requires fields != [] && Distinct(Keys(fields))
    ensures Distinct(Keys(fields[1..])) && fields[0].key !in SetValues(lib, fields[1..], values)
  {
    SetKeysAreFieldKeys(lib, fields[1..], values);
    assert Keys(fields) == [fields[0].key] + Keys(fields[1..]);
    DistinctConcat([fields[0].key], Keys(fields[1..]));
  }

  lemma SetValueIsListed(lib: Lib, fields: seq<Field>, values: map<string, Value>)
    requires fields != [] && fields[0].key !in SetValues(lib, fields[1..], values)
    ensures var all := SetValues(lib, fields, values);
      && SetValues(lib, fields[1..], values) == all - {fields[0].key}
      && SetValue(lib, fields[0], values) == if fields[0].key in all then Some(all[fields[0].key]) else None
  {
    var rest, v := SetValues(lib, fields[1..], values), SetValue(lib, fields[0], values);
    if v.Some? {
      assert rest[fields[0].key := v.value] - {fields[0].key} == rest;
    } else {
      assert rest - {fields[0].key} == rest;
    }
  }

  lemma {:induction false} SameSetSameArgs(lib: Lib, fields: seq<Field>, a: map<string, Value>, b: map<string, Value>)
    requires Distinct(Keys(fields)) && SetValues(lib, fields, a) == SetValues(lib, fields, b)
    requires Args(lib, fields, a).Some? && Args(lib, fields, b).Some?
    ensures Args(lib, fields, a) == Args(lib, fields, b)
  {
    if fields != [] {
      HeadKeyIsNew(lib, fields, a);
      HeadKeyIsNew(lib, fields, b);
      SetValueIsListed(lib, fields, a);
      SetValueIsListed(lib, fields, b);
      SameSetSameArgs(lib, fields[1..], a, b);
      assert SetValue(lib, fields[0], a) == SetValue(lib, fields[0], b);
    }
  }

  /** No value can be taken for an option: every argument that begins with a dash is one of
      the schema's flags, and every flag begins with one. */
  lemma {:induction false} DashesAreFlags(lib: Lib, read: string -> int, fields: seq<Field>, n: nat,
                                          values: map<string, Value>)
    requires ValidFields(lib, fields) && Prints(lib, read) && n <= |fields|
    requires Args(lib, fields[n..], values).Some?
    ensures forall a :: a in Args(lib, fields[n..], values).value ==> (BeginsWithDash(a) <==> a in AllFlags(fields))
    decreases |fields| - n
  {
    if n < |fields| {
      var f := fields[n];
      assert fields[n..][0] == f && fields[n..][1..] == fields[n + 1..];
      DashesAreFlags(lib, read, fields, n + 1, values);
      FlagsAreListed(fields, f);
      FlagsOfMeaning(f);
      var own := FieldArgs(lib, f, values).value;
      forall a | a in own ensures BeginsWithDash(a) <==> a in AllFlags(fields) {
        ListedFlagHasShape(lib, fields, a);
        RenderedArgs(lib, read, f, values, a);
      }
    }
  }

  lemma RenderedArgs(lib: Lib, read: string -> int, f: Field, values: map<string, Value>, a: string)
    requires Prints(lib, read) && FieldArgs(lib, f, values).Some? && a in FieldArgs(lib, f, values).value
    ensures a in FlagsOf(f) || !BeginsWithDash(a)
  {
    var raw := Effective(f, values);
    if raw != Nil {
      CanonicalHasNoDash(lib, f, raw);
      RenderedHasNoDash(lib, read, f, NormalizeValue(lib, f, raw).value, a);
    }
  }

  predicate Dashless(v: Value) {
    (v.Str? ==> !BeginsWithDash(v.s)) && (v.Num? && v.f.Finite? ==> v.f.units >= 0)
  }

  lemma CanonicalHasNoDash(lib: Lib, f: Field, raw: Value)
    requires NormalizeValue(lib, f, raw).Some?
    ensures Dashless(NormalizeValue(lib, f, raw).value)
  {
    if raw.Str? {
      assert TrimSpace(TrimSpace(raw.s)) == TrimSpace(raw.s);
    }
  }

  lemma RenderedHasNoDash(lib: Lib, read: string -> int, f: Field, v: Value, a: string)
    requires Prints(lib, read) && Dashless(v) && a in Rendered(lib, f, v)
    ensures a in FlagsOf(f) || !BeginsWithDash(a)
  {
    FlagsOfMeaning(f);
    if v.Num? && v.f.Finite? {
      NumbersHaveNoDash(lib, read, v.f.units);
    }
  }

  lemma NumbersHaveNoDash(lib: Lib, read: string -> int, n: nat)
    requires Prints(lib, read)
    ensures !BeginsWithDash(lib.printNumber(n))
  {
    assert IsDigit(lib.printNumber(n)[0]);
  }

  lemma {:induction false} ListedFlagHasShape(lib: Lib, fields: seq<Field>, a: string)
    requires FieldsInOrder(lib, fields)
    ensures a in AllFlags(fields) ==> FlagShape(a)
    decreases |fields|
  {
    if fields != [] {
      PrefixInOrder(lib, fields, |fields| - 1);
      ListedFlagHasShape(lib, fields[..|fields| - 1], a);
      assert FieldInOrder(lib, fields[|fields| - 1]);
    }
  }
}
