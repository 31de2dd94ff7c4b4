/** The field binder: fills the `@Key` fields of a `@BeanProperties` object
    from the key/value mapping loaded from the class's resource, coercing each
    raw string to the field's declared type.

    Reflection is replaced by an explicit class table (`BeanClass`): the
    resource named by `@BeanProperties`, if any, and every field in
    declaration order with its `@Key`, if any, and its declared type. The
    resource loader is a parameter that yields the loaded mapping or nothing. */
module Config {
  import opened JavaLang
  import opened Decimal

  /** The declared type of a field, one case per branch of `wrapperValue`;
      `OtherType` is every class that branch does not name. */
  datatype FieldType =
    | StringType | LongType | IntegerType | DoubleType | FloatType | ShortType
    | BooleanType | ByteType | CharacterType | CharSequenceType | OtherType

  datatype Precision = DoublePrecision | SinglePrecision

  /** The value held by a field. */
  datatype Value =
    | Unset                                // never assigned (a Java null)
    | Text(s: string)                      // String, CharSequence and pass-through
    | Whole(width: Width, n: int)          // Long, Integer, Short, Byte
    | Floating(precision: Precision, text: string)  // Double, Float: left uninterpreted
    | Flag(b: bool)                        // Boolean
    | Letter(c: char)                      // Character

  /** The integer width of an integer field type. */
  function WidthOf(t: FieldType): Option<Width> {
    match t
    case LongType => Some(LongWidth)
    case IntegerType => Some(IntegerWidth)
    case ShortType => Some(ShortWidth)
    case ByteType => Some(ByteWidth)
    case _ => None
  }

  function AsciiLower(c: char): char {
    if 'A' <= c <= 'Z' then (c as int - 'A' as int + 'a' as int) as char else c
  }

  /** `String.equalsIgnoreCase`, for ASCII letters. */
  predicate EqualsIgnoreCase(a: string, b: string) {
    |a| == |b| && forall i :: 0 <= i < |a| ==> AsciiLower(a[i]) == AsciiLower(b[i])
  }

  /** `wrapperValue`: the raw string coerced to the field's declared type. */
  function WrapperValue(raw: string, t: FieldType): (r: Result<Value>)
    ensures t in {StringType, CharSequenceType, OtherType} ==> r == Ok(Text(raw))
    ensures t == BooleanType ==> r.Ok? && r.value.Flag? && (r.value.b <==> EqualsIgnoreCase(raw, "true"))
    ensures t == CharacterType ==>
      (r.Ok? <==> raw != []) &&
      (r.Ok? ==> r.value == Letter(raw[0])) &&
      (r.Throws? ==> r.ex == StringIndexOutOfBoundsException)
    ensures WidthOf(t).Some? ==>
      var w := WidthOf(t).value;
      (r.Ok? <==> IsNumeral(raw) && InRange(ParseDecimal(raw).value, w)) &&
      (r.Ok? ==> r.value.Whole? && r.value.width == w && Some(r.value.n) == ParseDecimal(raw)) &&
      (r.Throws? ==> r.ex == NumberFormatException)
    ensures t in {DoubleType, FloatType} ==> r.Ok? && r.value.Floating? && r.value.text == raw
  {
    match t
    case StringType => Ok(Text(raw))
    case LongType => WholeOf(raw, LongWidth)
    case IntegerType => WholeOf(raw, IntegerWidth)
    case DoubleType => Ok(Floating(DoublePrecision, raw))
    case FloatType => Ok(Floating(SinglePrecision, raw))
    case ShortType => WholeOf(raw, ShortWidth)
    case BooleanType => Ok(Flag(EqualsIgnoreCase(raw, "true")))
    case ByteType => WholeOf(raw, ByteWidth)
    case CharacterType => if raw == [] then Throws(StringIndexOutOfBoundsException) else Ok(Letter(raw[0]))
    case CharSequenceType => Ok(Text(raw))
    case OtherType => Ok(Text(raw))
  }

  function WholeOf(raw: string, w: Width): Result<Value> {
    match ParseInteger(raw, w)
    case Ok(n) => Ok(Whole(w, n))
    case Throws(e) => Throws(e)
  }

  /** Coercion inverts printing: the numeral of any in-range integer is read
      back as that integer, at the field's width. */
  lemma WrapperValueRoundTrip(n: int, t: FieldType)
    requires WidthOf(t).Some? && InRange(n, WidthOf(t).value)
    ensures WrapperValue(ShowDecimal(n), t) == Ok(Whole(WidthOf(t).value, n))
  {
    ParseIntegerShow(n, WidthOf(t).value);
  }

  /** Boolean coercion never fails: any spelling of "true" is true, and every
      other string, the empty one included, is false. */
  lemma BooleanSpellings()
    ensures WrapperValue("true", BooleanType) == Ok(Flag(true))
    ensures WrapperValue("TRUE", BooleanType) == Ok(Flag(true))
    ensures WrapperValue("tRuE", BooleanType) == Ok(Flag(true))
    ensures WrapperValue("false", BooleanType) == Ok(Flag(false))
    ensures WrapperValue("yes", BooleanType) == Ok(Flag(false))
    ensures WrapperValue("1", BooleanType) == Ok(Flag(false))
    ensures WrapperValue("", BooleanType) == Ok(Flag(false))
    ensures WrapperValue(" true", BooleanType) == Ok(Flag(false))
  {
    assert !EqualsIgnoreCase("false", "true") by { assert AsciiLower("false"[0]) != AsciiLower("true"[0]); }
    assert !EqualsIgnoreCase(" true", "true");
  }

  /** Integer coercion rejects what is not a whole numeral: nothing, a bare
      sign, surrounding blanks, a fraction. */
  lemma IntegerRejectsNonNumerals()
    ensures WrapperValue("", IntegerType) == Throws(NumberFormatException)
    ensures WrapperValue("-", IntegerType) == Throws(NumberFormatException)
    ensures WrapperValue(" 10", IntegerType) == Throws(NumberFormatException)
    ensures WrapperValue("1.5", LongType) == Throws(NumberFormatException)
  {
    assert !IsNumeral(" 10") by { assert !IsDigit(" 10"[0]); }
    assert !IsNumeral("1.5") by { assert "1.5"[1..] == ".5"; assert !IsDigit("1.5"[1]); }
  }

  lemma Digits128()
    ensures DigitsValue("128") == Some(128)
  {
    assert "128"[..2] == "12" && "12"[..1] == "1" && "1"[..0] == "";
  }

  /** The byte range ends at 127 and -128. */
  lemma ByteBounds()
    ensures WrapperValue("128", ByteType) == Throws(NumberFormatException)
    ensures WrapperValue("-128", ByteType) == Ok(Whole(ByteWidth, -128))
  {
    Digits128();
    assert "-128"[1..] == "128";
  }

  /** A leading '+' and leading zeros are accepted. */
  lemma PlusAndLeadingZeros()
    ensures WrapperValue("+007", ShortType) == Ok(Whole(ShortWidth, 7))
  {
    assert "+007"[1..] == "007";
    assert "007"[..2] == "00" && "00"[..1] == "0" && "0"[..0] == "";
    assert DigitsValue("007") == Some(7);
  }

  // ---------------------------------------------------------------------
  // The class table and the binding loop
  // ---------------------------------------------------------------------

  /** A declared field: its name, its `@Key` value if annotated, its type. */
  datatype FieldDecl = FieldDecl(name: string, key: Option<string>, fieldType: FieldType)

  /** A class: the resource of its `@BeanProperties`, if annotated, and its
      fields in declaration order. */
  datatype BeanClass = BeanClass(resource: Option<string>, fields: seq<FieldDecl>)

  /** The fields of an object, by name. */
  type Record = map<string, Value>

  /** Field names identify fields: no two declarations share one. */
  ghost predicate DistinctNames(fs: seq<FieldDecl>) {
    forall i, j :: 0 <= i < j < |fs| ==> fs[i].name != fs[j].name
  }

  /** Field discovery: the `@Key` fields, in declaration order. */
  function KeyFields(fs: seq<FieldDecl>): (r: seq<FieldDecl>)
    ensures forall f :: f in r <==> f in fs && f.key.Some?
    ensures r == [] <==> forall f :: f in fs ==> f.key.None?
    ensures |r| <= |fs|
    ensures DistinctNames(fs) ==> DistinctNames(r)
  {
    if fs == [] then []
    else
      var init := fs[..|fs| - 1];
      var last := fs[|fs| - 1];
      assert forall f :: f in fs <==> f in init || f == last;
      assert DistinctNames(fs) ==> forall f :: f in init ==> f.name != last.name;
      KeyFields(init) + (if last.key.Some? then [last] else [])
  }

  /** `r` lists the `@Key` fields of `fs` in declaration order: `m` maps each
      position of `r` to a strictly later position of `fs` than the one
      before, and every `@Key` field of `fs` is among those positions. */
  ghost predicate DeclarationOrder(r: seq<FieldDecl>, fs: seq<FieldDecl>, m: seq<nat>) {
    && |m| == |r|
    && (forall k :: 0 <= k < |m| ==> m[k] < |fs| && r[k] == fs[m[k]])
    && (forall k, l :: 0 <= k < l < |m| ==> m[k] < m[l])
    && (forall i :: 0 <= i < |fs| && fs[i].key.Some? ==> i in m)
  }

  /** Field discovery keeps declaration order and misses no `@Key` field. */
  lemma {:induction false} KeyFieldsInOrder(fs: seq<FieldDecl>)
    ensures exists m :: DeclarationOrder(KeyFields(fs), fs, m)
  {
    if fs == [] {
      assert DeclarationOrder(KeyFields(fs), fs, []);
    } else {
      var n := |fs| - 1;
      var init, last := fs[..n], fs[n];
      KeyFieldsInOrder(init);
      var m :| DeclarationOrder(KeyFields(init), init, m);
      KeyFieldsSnoc(fs);
      DeclarationOrderSnoc(KeyFields(init), init, m, last, KeyFields(fs), fs);
    }
  }

  /** Discovery over one more declared field. */
  lemma KeyFieldsSnoc(fs: seq<FieldDecl>)
    requires fs != []
    ensures fs == fs[..|fs| - 1] + [fs[|fs| - 1]]
    ensures KeyFields(fs) == KeyFields(fs[..|fs| - 1]) + (if fs[|fs| - 1].key.Some? then [fs[|fs| - 1]] else [])
  {
  }

  /** One more declared field keeps the order: a `@Key` field is listed at
      the end, any other field is not listed. */
  lemma DeclarationOrderSnoc(r: seq<FieldDecl>, fs: seq<FieldDecl>, m: seq<nat>, last: FieldDecl,
                              r': seq<FieldDecl>, fs': seq<FieldDecl>)
    requires DeclarationOrder(r, fs, m)
    requires fs' == fs + [last] && r' == r + (if last.key.Some? then [last] else [])
    ensures exists m' :: DeclarationOrder(r', fs', m')
  {
    var n := |fs|;
    assert forall i :: 0 <= i < n ==> fs'[i] == fs[i];
    if last.key.Some? {
      var m' := m + [n];
      forall k | 0 <= k < |m'| ensures m'[k] < |fs'| && r'[k] == fs'[m'[k]] {
        if k < |m| { assert m'[k] == m[k] && r'[k] == r[k]; }
      }
      forall k, l | 0 <= k < l < |m'| ensures m'[k] < m'[l] {
        assert m'[k] == m[k];
      }
      forall i | 0 <= i < |fs'| && fs'[i].key.Some? ensures i in m' {
        if i < n { assert i in m; }
      }
      assert DeclarationOrder(r', fs', m');
    } else {
      forall i | 0 <= i < |fs'| && fs'[i].key.Some? ensures i in m {
        assert i < n;
      }
      assert r' == r;
      assert DeclarationOrder(r', fs', m);
    }
  }

  /** Where the loop stands: the fields so far, and the exception that stopped it. */
  datatype Progress = Progress(record: Record, failure: Option<Exception>)

  /** One turn of the loop: a field whose key the mapping lacks is skipped;
      otherwise its raw value is coerced and assigned, or the coercion throws. */
  function Step(rec: Record, f: FieldDecl, props: Props): Progress {
    if f.key.None? || f.key.value !in props then Progress(rec, None)
    else
      match WrapperValue(props[f.key.value], f.fieldType)
      case Throws(e) => Progress(rec, Some(e))
      case Ok(v) => Progress(rec[f.name := v], None)
  }

  /** The loop over the discovered fields, in order, stopping at the first
      coercion that throws. */
  function AssignFields(rec: Record, fs: seq<FieldDecl>, props: Props): Progress {
    if fs == [] then Progress(rec, None)
    else
      var p := AssignFields(rec, fs[..|fs| - 1], props);
      if p.failure.Some? then p else Step(p.record, fs[|fs| - 1], props)
  }

  /** What the loop writes when started from no fields at all. */
  function Assignments(fs: seq<FieldDecl>, props: Props): Record {
    AssignFields(map[], fs, props).record
  }

  /** The loop only overwrites: its effect on any record is that record
      updated with what it writes from scratch, and whether it throws does not
      depend on the record. */
  lemma {:induction false} AssignFieldsOverrides(rec: Record, fs: seq<FieldDecl>, props: Props)
    ensures AssignFields(rec, fs, props).record == rec + Assignments(fs, props)
    ensures AssignFields(rec, fs, props).failure == AssignFields(map[], fs, props).failure
  {
    if fs != [] {
      var init := fs[..|fs| - 1];
      AssignFieldsOverrides(rec, init, props);
      var q := AssignFields(map[], init, props);
      if q.failure.None? {
        var f := fs[|fs| - 1];
        if f.key.Some? && f.key.value in props && WrapperValue(props[f.key.value], f.fieldType).Ok? {
          var v := WrapperValue(props[f.key.value], f.fieldType).value;
          assert (rec + q.record)[f.name := v] == rec + q.record[f.name := v];
        }
      }
    }
  }

  /** Only fields with a key found in the mapping are written. */
  lemma {:induction false} AssignmentsWritten(fs: seq<FieldDecl>, props: Props)
    ensures forall n :: n in Assignments(fs, props) ==>
      exists i :: 0 <= i < |fs| && fs[i].name == n && fs[i].key.Some? && fs[i].key.value in props
  {
    if fs != [] {
      var init := fs[..|fs| - 1];
      AssignmentsWritten(init, props);
      AssignFieldsOverrides(map[], init, props);
      forall n | n in Assignments(fs, props)
        ensures exists i :: 0 <= i < |fs| && fs[i].name == n && fs[i].key.Some? && fs[i].key.value in props
      {
        if n in Assignments(init, props) {
          var i :| 0 <= i < |init| && init[i].name == n && init[i].key.Some? && init[i].key.value in props;
          assert fs[i] == init[i];
        }
      }
    }
  }

  /** Binding twice with the same mapping gives the same fields as binding once. */
  lemma AssignFieldsIdempotent(rec: Record, fs: seq<FieldDecl>, props: Props)
    ensures AssignFields(AssignFields(rec, fs, props).record, fs, props) == AssignFields(rec, fs, props)
  {
    var a := Assignments(fs, props);
    AssignFieldsOverrides(rec, fs, props);
    AssignFieldsOverrides(rec + a, fs, props);
    assert (rec + a) + a == rec + a;
  }

  /** A field that no entry of the loop names with a key present in the
      mapping keeps its prior value (or stays absent). */
  lemma AssignFieldsKeepsOthers(rec: Record, fs: seq<FieldDecl>, props: Props, n: string)
    requires forall i :: 0 <= i < |fs| && fs[i].name == n ==> fs[i].key.None? || fs[i].key.value !in props
    ensures var r := AssignFields(rec, fs, props).record;
      (n in r <==> n in rec) && (n in rec ==> r[n] == rec[n])
  {
    AssignFieldsOverrides(rec, fs, props);
    AssignmentsWritten(fs, props);
  }

  /** When no coercion throws, every field whose key is in the mapping ends up
      holding its coerced value. */
  lemma {:induction false} AssignFieldsSetsPresentKeys(rec: Record, fs: seq<FieldDecl>, props: Props)
    requires DistinctNames(fs)
    requires AssignFields(rec, fs, props).failure.None?
    ensures forall i :: 0 <= i < |fs| && fs[i].key.Some? && fs[i].key.value in props ==>
      var w := WrapperValue(props[fs[i].key.value], fs[i].fieldType);
      w.Ok? && fs[i].name in AssignFields(rec, fs, props).record &&
      AssignFields(rec, fs, props).record[fs[i].name] == w.value
  {
    if fs != [] {
      var n := |fs| - 1;
      var init := fs[..n];
      assert forall i :: 0 <= i < n ==> init[i] == fs[i];
      assert DistinctNames(init);
      AssignFieldsSetsPresentKeys(rec, init, props);
    }
  }

  /** The loop over `fs` stopped at field `j`: the fields before it went
      through, and its coercion threw the exception that ended the loop, so the
      record is what it was before field `j`. */
  ghost predicate StoppedAt(rec: Record, fs: seq<FieldDecl>, props: Props, j: int)
    requires 0 <= j < |fs|
  {
    var before := AssignFields(rec, fs[..j], props);
    var after := AssignFields(rec, fs, props);
    && before.failure.None?
    && after.failure.Some?
    && after.record == before.record
    && fs[j].key.Some? && fs[j].key.value in props
    && WrapperValue(props[fs[j].key.value], fs[j].fieldType) == Throws(after.failure.value)
  }

  /** A coercion that throws stops the loop: there is a field whose coercion
      threw that exception, the fields before it were assigned as usual, and
      nothing from that field on was written. */
  lemma {:induction false} AssignFieldsStopsAtFailure(rec: Record, fs: seq<FieldDecl>, props: Props)
    requires AssignFields(rec, fs, props).failure.Some?
    ensures exists j :: 0 <= j < |fs| && StoppedAt(rec, fs, props, j)
  {
    var n := |fs| - 1;
    var init := fs[..n];
    var p := AssignFields(rec, init, props);
    if p.failure.Some? {
      AssignFieldsStopsAtFailure(rec, init, props);
      var j :| 0 <= j < |init| && StoppedAt(rec, init, props, j);
      assert init[..j] == fs[..j];
      assert init[j] == fs[j];
      assert StoppedAt(rec, fs, props, j);
    } else {
      assert fs[..n] == init;
      assert StoppedAt(rec, fs, props, n);
    }
  }

  /** What `build(entity)` does to an object of class `cls` whose fields are
      `rec`: the new fields, how the call ends, and the resource it tried to
      load (None when it returned before loading). */
  datatype Binding = Binding(record: Record, outcome: Outcome, loaded: Option<string>)

  function Bind(cls: BeanClass, rec: Record, load: string -> Option<Props>): Binding {
    if cls.resource.None? then Binding(rec, Completes, None)
    else
      var fs := KeyFields(cls.fields);
      var res := cls.resource.value;
      if fs == [] then Binding(rec, Completes, None)
      else
        match load(res)
        case None => Binding(rec, Raises(PropertiesException), Some(res))
        case Some(props) =>
          if |props| == 0 then Binding(rec, Completes, Some(res))
          else
            var p := AssignFields(rec, fs, props);
            Binding(p.record, if p.failure.None? then Completes else Raises(p.failure.value), Some(res))
  }

  /** The early exits: a class without `@BeanProperties`, or without `@Key`
      fields, returns normally without loading anything; a load that fails
      raises PropertiesException; an empty mapping returns normally; in each
      case no field changes. */
  lemma BindEarlyExits(cls: BeanClass, rec: Record, load: string -> Option<Props>)
    ensures cls.resource.None? ==> Bind(cls, rec, load) == Binding(rec, Completes, None)
    ensures (forall f :: f in cls.fields ==> f.key.None?) ==> Bind(cls, rec, load) == Binding(rec, Completes, None)
    ensures Bind(cls, rec, load).loaded.Some? ==> Bind(cls, rec, load).loaded == cls.resource
    ensures cls.resource.Some? && load(cls.resource.value).None? ==>
      Bind(cls, rec, load).record == rec &&
      Bind(cls, rec, load).outcome in {Completes, Raises(PropertiesException)}
    ensures cls.resource.Some? && load(cls.resource.value) == Some(map[]) ==>
      Bind(cls, rec, load).record == rec && Bind(cls, rec, load).outcome == Completes
  {
  }

  /** A load failure is reported exactly when there is something to bind. */
  lemma BindLoadFailure(cls: BeanClass, rec: Record, load: string -> Option<Props>)
    requires cls.resource.Some? && load(cls.resource.value).None?
    ensures Bind(cls, rec, load).outcome == Raises(PropertiesException) <==>
      exists f :: f in cls.fields && f.key.Some?
    ensures Bind(cls, rec, load).record == rec
  {
    var fs := KeyFields(cls.fields);
    if fs != [] { assert fs[0] in fs; }
  }

  /** A field without `@Key`, or whose key the loaded mapping lacks, keeps its
      prior value. */
  lemma BindKeepsUnboundField(cls: BeanClass, rec: Record, load: string -> Option<Props>, n: string)
    requires forall i :: 0 <= i < |cls.fields| && cls.fields[i].name == n ==>
      cls.fields[i].key.None? ||
      (cls.resource.Some? && load(cls.resource.value).Some? && cls.fields[i].key.value !in load(cls.resource.value).value)
    ensures var r := Bind(cls, rec, load).record;
      (n in r <==> n in rec) && (n in rec ==> r[n] == rec[n])
  {
    if cls.resource.Some? && load(cls.resource.value).Some? {
      var fs := KeyFields(cls.fields);
      var props := load(cls.resource.value).value;
      forall i | 0 <= i < |fs| && fs[i].name == n
        ensures fs[i].key.None? || fs[i].key.value !in props
      {
        assert fs[i] in cls.fields;
      }
      AssignFieldsKeepsOthers(rec, fs, props, n);
    }
  }

  /** When binding completes, every `@Key` field whose key is in the loaded
      mapping holds that entry coerced to the field's type. */
  lemma BindSetsPresentKeys(cls: BeanClass, rec: Record, load: string -> Option<Props>)
    requires DistinctNames(cls.fields)
    requires Bind(cls, rec, load).outcome == Completes
    ensures forall f ::
      (f in cls.fields && f.key.Some? && cls.resource.Some? &&
       load(cls.resource.value).Some? && f.key.value in load(cls.resource.value).value) ==>
      var w := WrapperValue(load(cls.resource.value).value[f.key.value], f.fieldType);
      w.Ok? && f.name in Bind(cls, rec, load).record && Bind(cls, rec, load).record[f.name] == w.value
  {
    if cls.resource.Some? && load(cls.resource.value).Some? {
      var fs := KeyFields(cls.fields);
      var props := load(cls.resource.value).value;
      if fs != [] && |props| > 0 {
        AssignFieldsSetsPresentKeys(rec, fs, props);
        forall f | f in cls.fields && f.key.Some? && f.key.value in props
          ensures var w := WrapperValue(props[f.key.value], f.fieldType);
            w.Ok? && f.name in Bind(cls, rec, load).record && Bind(cls, rec, load).record[f.name] == w.value
        {
          assert f in fs;
          var i :| 0 <= i < |fs| && fs[i] == f;
        }
      }
    }
  }

  /** A coercion that throws escapes `build`: the fields before the failing
      one keep their new values, the rest are untouched. */
  lemma BindCoercionFailure(cls: BeanClass, rec: Record, load: string -> Option<Props>)
    requires Bind(cls, rec, load).outcome.Raises?
    requires Bind(cls, rec, load).outcome != Raises(PropertiesException)
    ensures cls.resource.Some? && load(cls.resource.value).Some?
    ensures exists j | 0 <= j < |KeyFields(cls.fields)| ::
      StoppedAt(rec, KeyFields(cls.fields), load(cls.resource.value).value, j)
    ensures Bind(cls, rec, load).record ==
      AssignFields(rec, KeyFields(cls.fields), load(cls.resource.value).value).record
    ensures Bind(cls, rec, load).outcome.ex ==
      AssignFields(rec, KeyFields(cls.fields), load(cls.resource.value).value).failure.value
  {
    var fs := KeyFields(cls.fields);
    var props := load(cls.resource.value).value;
    var p := AssignFields(rec, fs, props);
    assert Bind(cls, rec, load) == Binding(p.record, if p.failure.None? then Completes else Raises(p.failure.value), cls.resource);
    AssignFieldsStopsAtFailure(rec, fs, props);
  }

  // ---------------------------------------------------------------------
  // The object and PropertiesConfig.build
  // ---------------------------------------------------------------------

  /** An object whose fields `build` may assign. */
  class Bean {
    const cls: BeanClass
    var fields: Record

    constructor (cls: BeanClass, fields: Record)
      ensures this.cls == cls && this.fields == fields
    {
      this.cls := cls;
      this.fields := fields;
    }
  }

  /** `PropertiesConfig.build(entity)`. */
  method Build(entity: Bean?, load: string -> Option<Props>) returns (outcome: Outcome, loaded: Option<string>)
    modifies entity
    ensures entity == null ==> outcome == Completes && loaded == None
    ensures entity != null ==>
      var b := Bind(entity.cls, old(entity.fields), load);
      entity.fields == b.record && outcome == b.outcome && loaded == b.loaded
  {
    if entity == null || entity.cls.resource.None? {
      return Completes, None;
    }
    ghost var rec := entity.fields;
    var fs := KeyFields(entity.cls.fields);
    if |fs| == 0 {
      return Completes, None;
    }
    var res := entity.cls.resource.value;
    loaded := Some(res);
    var props := load(res);
    if props.None? {
      return Raises(PropertiesException), loaded;
    }
    if |props.value| == 0 {
      return Completes, loaded;
    }
    var mapping := props.value;
    for i := 0 to |fs|
      invariant AssignFields(rec, fs[..i], mapping) == Progress(entity.fields, None)
    {
      AssignFieldsSnoc(rec, fs, mapping, i);
      var f := fs[i];
      if f.key.None? || f.key.value !in mapping {
        continue;
      }
      var v := WrapperValue(mapping[f.key.value], f.fieldType);
      if v.Throws? {
        AssignFieldsFailurePersists(rec, fs, mapping, i + 1);
        return Raises(v.ex), loaded;
      }
      entity.fields := entity.fields[f.name := v.value];
    }
    assert fs[..|fs|] == fs;
    outcome := Completes;
  }

  /** One more turn of the loop. */
  lemma AssignFieldsSnoc(rec: Record, fs: seq<FieldDecl>, props: Props, i: nat)
    requires i < |fs|
    ensures AssignFields(rec, fs[..i + 1], props) ==
      var p := AssignFields(rec, fs[..i], props);
      if p.failure.Some? then p else Step(p.record, fs[i], props)
  {
    assert fs[..i + 1][..i] == fs[..i];
  }

  /** Once the loop has thrown, later fields do not change the outcome. */
  lemma {:induction false} AssignFieldsFailurePersists(rec: Record, fs: seq<FieldDecl>, props: Props, k: nat)
    requires k <= |fs| && AssignFields(rec, fs[..k], props).failure.Some?
    ensures AssignFields(rec, fs, props) == AssignFields(rec, fs[..k], props)
    decreases |fs|
  {
    if k < |fs| {
      var init := fs[..|fs| - 1];
      assert init[..k] == fs[..k];
      AssignFieldsFailurePersists(rec, init, props, k);
    } else {
      assert fs[..k] == fs;
    }
  }

  /** The class of the example bean: a String field and an Integer field. */
  function ExampleClass(): BeanClass {
    BeanClass(Some("mcaligares/modules/properties/test.properties"), [
      FieldDecl("name", Some("properties.name"), StringType),
      FieldDecl("age", Some("properties.age"), IntegerType)
    ])
  }

  lemma ExampleKeyFields()
    ensures KeyFields(ExampleClass().fields) == ExampleClass().fields
  {
    var fs := ExampleClass().fields;
    assert fs[..1][..0] == [] && fs[..|fs| - 1] == fs[..1];
  }

  lemma Coerce10()
    ensures WrapperValue("10", IntegerType) == Ok(Whole(IntegerWidth, 10))
  {
    assert "10"[..1] == "1" && "1"[..0] == "";
    assert DigitsValue("10") == Some(10);
  }

  lemma ExampleAssignments(rec: Record, props: Props)
    requires props == map["properties.age" := "10", "properties.name" := "Hello!"]
    ensures AssignFields(rec, ExampleClass().fields, props) ==
      Progress(rec["name" := Text("Hello!")]["age" := Whole(IntegerWidth, 10)], None)
  {
    var fs := ExampleClass().fields;
    Coerce10();
    assert fs[..1][..0] == [] && fs[..|fs| - 1] == fs[..1];
    var first := AssignFields(rec, fs[..1], props);
    assert fs[..1][|fs[..1]| - 1] == fs[0];
    assert AssignFields(rec, fs[..1][..0], props) == Progress(rec, None);
    assert first == Step(rec, fs[0], props);
    assert first == Progress(rec["name" := Text("Hello!")], None);
    assert AssignFields(rec, fs, props) == Step(first.record, fs[1], props);
  }

  /** Binding the example bean against `properties.age=10` and
      `properties.name=Hello!` sets `age` to 10 and `name` to "Hello!". */
  method BindExample() returns (outcome: Outcome, name: Value, age: Value)
    ensures outcome == Completes
    ensures name == Text("Hello!") && age == Whole(IntegerWidth, 10)
  {
    var rec := map["name" := Unset, "age" := Unset];
    var bean := new Bean(ExampleClass(), rec);
    var props := map["properties.age" := "10", "properties.name" := "Hello!"];
    var load := (res: string) => if res == "mcaligares/modules/properties/test.properties" then Some(props) else None;
    ExampleKeyFields();
    ExampleAssignments(rec, props);
    assert |props| != 0 by { assert "properties.age" in props; }
    var loaded;
    outcome, loaded := Build(bean, load);
    name := bean.fields["name"];
    age := bean.fields["age"];
  }
}
