/** The SDK's tolerant check of indexer responses. */
module Schema {
  import opened Prelude
  import opened Digits

  // ----- Schemas and bodies -----

  datatype Spec = Spec(kind: Kind, nullable: bool, optional: bool)

  datatype Kind =
    | StringKind(allowed: Option<seq<string>>) | IntegerKind | BooleanKind | StroopsKind | BigintKind | TimestampKind
    | ObjectKind(fields: seq<Field>) | ArrayKind(items: Spec) | RecordKind(values: Spec)

  datatype Field = Field(key: string, spec: Spec)

  /** A decoded JSON value; `dated` says whether `Date.parse` accepts the text. */
  datatype Json =
    | Null | Boolean(b: bool) | Int(n: int) | Fraction | Text(s: string, dated: bool)
    | Array(items: seq<Json>) | Object(members: seq<Member>)

  datatype Member = Member(key: string, value: Json)

  /** A property that may be missing. */
  datatype Property = Missing | Present(value: Json)

  datatype Step = Key(key: string) | Index(i: nat)

  datatype Found = Absent | IsNull | IsArray | IsInteger | IsNumber | IsString | IsBoolean | IsObject | BadText

  datatype Violation = Violation(path: seq<Step>, expected: Kind, found: Found)

  function Lookup(members: seq<Member>, key: string): (p: Property)
    ensures p.Present? ==> exists i :: 0 <= i < |members| && members[i].key == key && members[i].value == p.value
    ensures p.Missing? ==> forall i :: 0 <= i < |members| ==> members[i].key != key
  {
    if members == [] then Missing
    else if members[0].key == key then Present(members[0].value)
    else
      var p := Lookup(members[1..], key);
      assert p.Present? ==> exists i :: 1 <= i < |members| && members[i].key == key && members[i].value == p.value by {
        if p.Present? {
          var i :| 0 <= i < |members[1..]| && members[1..][i].key == key && members[1..][i].value == p.value;
          assert members[i + 1].key == key && members[i + 1].value == p.value;
        }
      }
      p
  }

  function Describe(v: Json): Found {
    match v
    case Null => IsNull
    case Boolean(_) => IsBoolean
    case Int(_) => IsInteger
    case Fraction => IsNumber
    case Text(_, _) => IsString
    case Array(_) => IsArray
    case Object(_) => IsObject
  }

  predicate SafeInteger(n: int) {
    -MAX_SAFE_INTEGER <= n <= MAX_SAFE_INTEGER
  }

  predicate UnsignedText(s: string) {
    s != "" && AllDigits(s)
  }

  predicate SignedText(s: string) {
    UnsignedText(s) || (s != "" && s[0] == '-' && UnsignedText(s[1..]))
  }

  /** What is wrong with a scalar, if anything. */
  function ScalarProblem(kind: Kind, v: Json): Option<Found> {
    match kind
    case StringKind(allowed) =>
      if !v.Text? then Some(Describe(v)) else if allowed.Some? && v.s !in allowed.value then Some(BadText) else None
    case IntegerKind => if v.Int? && SafeInteger(v.n) then None else Some(Describe(v))
    case BooleanKind => if v.Boolean? then None else Some(Describe(v))
    case StroopsKind => if !v.Text? then Some(Describe(v)) else if SignedText(v.s) then None else Some(BadText)
    case BigintKind =>
      if v.Int? then (if SafeInteger(v.n) && v.n >= 0 then None else Some(IsInteger))
      else if v.Text? then (if UnsignedText(v.s) then None else Some(BadText))
      else Some(Describe(v))
    case TimestampKind => if !v.Text? then Some(Describe(v)) else if v.dated then None else Some(BadText)
    case ObjectKind(_) => if v.Object? then None else Some(Describe(v))
    case ArrayKind(_) => if v.Array? then None else Some(Describe(v))
    case RecordKind(_) => if v.Object? then None else Some(Describe(v))
  }

  // ----- The violations of a property, in the order the code reports them -----

  function Violations(spec: Spec, p: Property, path: seq<Step>): seq<Violation>
    decreases spec, 2
  {
    if p.Missing? then (if spec.optional then [] else [Violation(path, spec.kind, Absent)])
    else if p.value.Null? then (if spec.nullable then [] else [Violation(path, spec.kind, IsNull)])
    else
      match ScalarProblem(spec.kind, p.value)
      case Some(found) => [Violation(path, spec.kind, found)]
      case None =>
        match spec.kind
        case ObjectKind(fields) => FieldViolations(fields, p.value.members, path)
        case ArrayKind(items) => ItemViolations(items, p.value.items, path)
        case RecordKind(values) => ValueViolations(values, p.value.members, path)
        case _ => []
  }

  function FieldViolations(fields: seq<Field>, members: seq<Member>, path: seq<Step>): seq<Violation>
    decreases fields, 0
  {
    if fields == [] then []
    else
      var last := fields[|fields| - 1];
      FieldViolations(fields[..|fields| - 1], members, path)
      + Violations(last.spec, Lookup(members, last.key), path + [Key(last.key)])
  }

  function ItemViolations(items: Spec, values: seq<Json>, path: seq<Step>): seq<Violation>
    decreases items, 3, values
  {
    if values == [] then []
    else
      var n := |values| - 1;
      ItemViolations(items, values[..n], path) + Violations(items, Present(values[n]), path + [Index(n)])
  }

  function ValueViolations(values: Spec, members: seq<Member>, path: seq<Step>): seq<Violation>
    decreases values, 3, members
  {
    if members == [] then []
    else
      var last := members[|members| - 1];
      ValueViolations(values, members[..|members| - 1], path) + Violations(values, Present(last.value), path + [Key(last.key)])
  }

  // ----- Conformance, stated on its own -----

  /** The value has the kind's type and range. */
  ghost predicate ScalarFits(kind: Kind, v: Json) {
    match kind
    case StringKind(allowed) => v.Text? && (allowed.None? || v.s in allowed.value)
    case IntegerKind => v.Int? && -MAX_SAFE_INTEGER <= v.n <= MAX_SAFE_INTEGER
    case BooleanKind => v.Boolean?
    case StroopsKind => v.Text? && (Numeral(v.s) || (v.s != "" && v.s[0] == '-' && Numeral(v.s[1..])))
    case BigintKind => (v.Int? && 0 <= v.n <= MAX_SAFE_INTEGER) || (v.Text? && Numeral(v.s))
    case TimestampKind => v.Text? && v.dated
    case ArrayKind(_) => v.Array?
    case ObjectKind(_) => v.Object?
    case RecordKind(_) => v.Object?
  }

  ghost predicate Numeral(s: string) {
    s != "" && forall i :: 0 <= i < |s| ==> '0' <= s[i] <= '9'
  }

  /** Texts are among the values of the kind. */
  predicate TakesText(kind: Kind) {
    kind.StringKind? || kind.StroopsKind? || kind.BigintKind? || kind.TimestampKind?
  }

  /** What a violation says was found: the value's JSON type, or that a text of the right type is not acceptable. */
  ghost predicate Names(found: Found, kind: Kind, v: Json) {
    match found
    case Absent => false
    case IsNull => v.Null?
    case IsBoolean => v.Boolean?
    case IsInteger => v.Int?
    case IsNumber => v.Fraction?
    case IsString => v.Text? && !TakesText(kind)
    case BadText => v.Text? && TakesText(kind)
    case IsArray => v.Array?
    case IsObject => v.Object?
  }

  lemma {:induction false} ScalarProblemExactly(kind: Kind, v: Json)
    ensures ScalarProblem(kind, v).None? <==> ScalarFits(kind, v)
    ensures ScalarProblem(kind, v).Some? ==> Names(ScalarProblem(kind, v).value, kind, v)
  {
  }

  /** The property itself is not as the schema says. */
  ghost predicate Offends(spec: Spec, p: Property, v: Violation) {
    && v.expected == spec.kind
    && if p.Missing? then !spec.optional && v.found.Absent?
       else if p.value.Null? then !spec.nullable && v.found.IsNull?
       else !ScalarFits(spec.kind, p.value) && Names(v.found, spec.kind, p.value)
  }

  /** Following `rest` down the schema and the value leads to a property that offends as the violation says. */
  ghost predicate Leads(spec: Spec, p: Property, rest: seq<Step>, v: Violation)
    decreases rest
  {
    if rest == [] then Offends(spec, p, v)
    else
      && p.Present?
      && match (spec.kind, p.value, rest[0])
         case (ObjectKind(fields), Object(members), Key(key)) =>
           exists i :: 0 <= i < |fields| && fields[i].key == key && Leads(fields[i].spec, Lookup(members, key), rest[1..], v)
         case (ArrayKind(items), Array(values), Index(i)) =>
           i < |values| && Leads(items, Present(values[i]), rest[1..], v)
         case (RecordKind(values), Object(members), Key(key)) =>
           exists i :: 0 <= i < |members| && members[i].key == key && Leads(values, Present(members[i].value), rest[1..], v)
         case _ => false
  }

  /** The violation lies at or below the path, where it says. */
  ghost predicate Points(spec: Spec, p: Property, path: seq<Step>, v: Violation) {
    path <= v.path && Leads(spec, p, v.path[|path|..], v)
  }

  ghost predicate PointsIntoField(fields: seq<Field>, i: nat, members: seq<Member>, path: seq<Step>, v: Violation)
    requires i < |fields|
  {
    Points(fields[i].spec, Lookup(members, fields[i].key), path + [Key(fields[i].key)], v)
  }

  ghost predicate PointsIntoItem(items: Spec, values: seq<Json>, i: nat, path: seq<Step>, v: Violation)
    requires i < |values|
  {
    Points(items, Present(values[i]), path + [Index(i)], v)
  }

  ghost predicate PointsIntoValue(values: Spec, members: seq<Member>, i: nat, path: seq<Step>, v: Violation)
    requires i < |members|
  {
    Points(values, Present(members[i].value), path + [Key(members[i].key)], v)
  }

  lemma {:induction false} OneStepDown(path: seq<Step>, step: Step, whole: seq<Step>)
    ensures path + [step] <= whole <==> path <= whole && |path| < |whole| && whole[|path|] == step
    ensures path + [step] <= whole ==> whole[|path| + 1..] == whole[|path|..][1..] && whole[|path|..][0] == step
  {
    if path + [step] <= whole {
      assert whole[|path|] == (path + [step])[|path|];
      assert path == (path + [step])[..|path|] == whole[..|path|];
    }
  }

  /** Each reported violation points at what offends, and everything that offends is reported. */
  lemma {:induction false} ViolationsExactly(spec: Spec, p: Property, path: seq<Step>, v: Violation)
    ensures v in Violations(spec, p, path) <==> Points(spec, p, path, v)
    decreases spec, 2
  {
    if p.Missing? || p.value.Null? || ScalarProblem(spec.kind, p.value).Some? {
      HereExactly(spec, p, path, v);
    } else {
      ScalarProblemExactly(spec.kind, p.value);
      match spec.kind
      case ObjectKind(fields) =>
        FieldsExactly(fields, p.value.members, path, v);
        FieldsBelow(spec, p, fields, path, v);
      case ArrayKind(items) =>
        ItemsExactly(items, p.value.items, path, v);
        ItemsBelow(spec, p, items, path, v);
      case RecordKind(values) =>
        ValuesExactly(values, p.value.members, path, v);
        ValuesBelow(spec, p, values, path, v);
      case _ =>
    }
  }

  lemma {:induction false} HereExactly(spec: Spec, p: Property, path: seq<Step>, v: Violation)
    requires p.Missing? || p.value.Null? || ScalarProblem(spec.kind, p.value).Some?
    ensures v in Violations(spec, p, path) <==> Points(spec, p, path, v)
  {
    if p.Present? {
      ScalarProblemExactly(spec.kind, p.value);
    }
    assert path <= v.path && v.path[|path|..] == [] <==> v.path == path;
  }

  lemma {:induction false} FieldsExactly(fields: seq<Field>, members: seq<Member>, path: seq<Step>, v: Violation)
    ensures v in FieldViolations(fields, members, path)
       <==> exists i :: 0 <= i < |fields| && PointsIntoField(fields, i, members, path, v)
    decreases fields, 0
  {
    if fields != [] {
      var n := |fields| - 1;
      assert fields decreases to fields[n];
      FieldsExactly(fields[..n], members, path, v);
      ViolationsExactly(fields[n].spec, Lookup(members, fields[n].key), path + [Key(fields[n].key)], v);
      IntoFieldSnoc(fields, n, members, path, v);
    }
  }

  lemma {:induction false} IntoFieldSnoc(fields: seq<Field>, n: nat, members: seq<Member>, path: seq<Step>, v: Violation)
    requires |fields| == n + 1
    ensures (exists i :: 0 <= i < |fields| && PointsIntoField(fields, i, members, path, v))
       <==> || (exists i :: 0 <= i < |fields[..n]| && PointsIntoField(fields[..n], i, members, path, v))
            || Points(fields[n].spec, Lookup(members, fields[n].key), path + [Key(fields[n].key)], v)
  {
    if i :| 0 <= i < |fields[..n]| && PointsIntoField(fields[..n], i, members, path, v) {
      assert PointsIntoField(fields, i, members, path, v);
    }
    if i :| 0 <= i < |fields| && PointsIntoField(fields, i, members, path, v) {
      assert i < n ==> PointsIntoField(fields[..n], i, members, path, v);
    }
    assert Points(fields[n].spec, Lookup(members, fields[n].key), path + [Key(fields[n].key)], v)
           ==> PointsIntoField(fields, n, members, path, v);
  }

  lemma {:induction false} ItemsExactly(items: Spec, values: seq<Json>, path: seq<Step>, v: Violation)
    ensures v in ItemViolations(items, values, path)
       <==> exists i :: 0 <= i < |values| && PointsIntoItem(items, values, i, path, v)
    decreases items, 3, values
  {
    if values != [] {
      var n := |values| - 1;
      ItemsExactly(items, values[..n], path, v);
      ViolationsExactly(items, Present(values[n]), path + [Index(n)], v);
      IntoItemSnoc(items, values, n, path, v);
    }
  }

  lemma {:induction false} IntoItemSnoc(items: Spec, values: seq<Json>, n: nat, path: seq<Step>, v: Violation)
    requires |values| == n + 1
    ensures (exists i :: 0 <= i < |values| && PointsIntoItem(items, values, i, path, v))
       <==> || (exists i :: 0 <= i < |values[..n]| && PointsIntoItem(items, values[..n], i, path, v))
            || Points(items, Present(values[n]), path + [Index(n)], v)
  {
    if i :| 0 <= i < |values[..n]| && PointsIntoItem(items, values[..n], i, path, v) {
      assert PointsIntoItem(items, values, i, path, v);
    }
    if i :| 0 <= i < |values| && PointsIntoItem(items, values, i, path, v) {
      assert i < n ==> PointsIntoItem(items, values[..n], i, path, v);
    }
    assert Points(items, Present(values[n]), path + [Index(n)], v) ==> PointsIntoItem(items, values, n, path, v);
  }

  lemma {:induction false} ValuesExactly(values: Spec, members: seq<Member>, path: seq<Step>, v: Violation)
    ensures v in ValueViolations(values, members, path)
       <==> exists i :: 0 <= i < |members| && PointsIntoValue(values, members, i, path, v)
    decreases values, 3, members
  {
    if members != [] {
      var n := |members| - 1;
      ValuesExactly(values, members[..n], path, v);
      ViolationsExactly(values, Present(members[n].value), path + [Key(members[n].key)], v);
      IntoValueSnoc(values, members, n, path, v);
    }
  }

  lemma {:induction false} IntoValueSnoc(values: Spec, members: seq<Member>, n: nat, path: seq<Step>, v: Violation)
    requires |members| == n + 1
    ensures (exists i :: 0 <= i < |members| && PointsIntoValue(values, members, i, path, v))
       <==> || (exists i :: 0 <= i < |members[..n]| && PointsIntoValue(values, members[..n], i, path, v))
            || Points(values, Present(members[n].value), path + [Key(members[n].key)], v)
  {
    if i :| 0 <= i < |members[..n]| && PointsIntoValue(values, members[..n], i, path, v) {
      assert PointsIntoValue(values, members, i, path, v);
    }
    if i :| 0 <= i < |members| && PointsIntoValue(values, members, i, path, v) {
      assert i < n ==> PointsIntoValue(values, members[..n], i, path, v);
    }
    assert Points(values, Present(members[n].value), path + [Key(members[n].key)], v)
           ==> PointsIntoValue(values, members, n, path, v);
  }

  lemma {:induction false} FieldsBelow(spec: Spec, p: Property, fields: seq<Field>, path: seq<Step>, v: Violation)
    requires p.Present? && p.value.Object? && spec.kind == ObjectKind(fields)
    ensures Points(spec, p, path, v) <==> exists i :: 0 <= i < |fields| && PointsIntoField(fields, i, p.value.members, path, v)
  {
    forall i | 0 <= i < |fields|
      ensures PointsIntoField(fields, i, p.value.members, path, v) <==>
        && path <= v.path && |path| < |v.path| && v.path[|path|] == Key(fields[i].key)
        && Leads(fields[i].spec, Lookup(p.value.members, fields[i].key), v.path[|path|..][1..], v)
    {
      OneStepDown(path, Key(fields[i].key), v.path);
    }
  }

  lemma {:induction false} ItemsBelow(spec: Spec, p: Property, items: Spec, path: seq<Step>, v: Violation)
    requires p.Present? && p.value.Array? && spec.kind == ArrayKind(items)
    ensures Points(spec, p, path, v) <==> exists i :: 0 <= i < |p.value.items| && PointsIntoItem(items, p.value.items, i, path, v)
  {
    forall i | 0 <= i < |p.value.items|
      ensures PointsIntoItem(items, p.value.items, i, path, v) <==>
        && path <= v.path && |path| < |v.path| && v.path[|path|] == Index(i)
        && Leads(items, Present(p.value.items[i]), v.path[|path|..][1..], v)
    {
      OneStepDown(path, Index(i), v.path);
    }
  }

  lemma {:induction false} ValuesBelow(spec: Spec, p: Property, values: Spec, path: seq<Step>, v: Violation)
    requires p.Present? && p.value.Object? && spec.kind == RecordKind(values)
    ensures Points(spec, p, path, v)
       <==> exists i :: 0 <= i < |p.value.members| && PointsIntoValue(values, p.value.members, i, path, v)
  {
    forall i | 0 <= i < |p.value.members|
      ensures PointsIntoValue(values, p.value.members, i, path, v) <==>
        && path <= v.path && |path| < |v.path| && v.path[|path|] == Key(p.value.members[i].key)
        && Leads(values, Present(p.value.members[i].value), v.path[|path|..][1..], v)
    {
      OneStepDown(path, Key(p.value.members[i].key), v.path);
    }
  }

  ghost predicate Conforms(spec: Spec, p: Property)
    decreases spec, 2
  {
    if p.Missing? then spec.optional
    else if p.value.Null? then spec.nullable
    else
      && ScalarFits(spec.kind, p.value)
      && match spec.kind
         case ObjectKind(fields) => FieldsConform(fields, p.value.members)
         case ArrayKind(items) => forall i :: 0 <= i < |p.value.items| ==> Conforms(items, Present(p.value.items[i]))
         case RecordKind(values) => forall i :: 0 <= i < |p.value.members| ==> Conforms(values, Present(p.value.members[i].value))
         case _ => true
  }

  /** Every field's property conforms; what the schema does not name is free. */
  ghost predicate FieldsConform(fields: seq<Field>, members: seq<Member>)
    decreases fields, 1
  {
    forall i :: 0 <= i < |fields| ==> FieldConforms(fields, i, members)
  }

  ghost predicate FieldConforms(fields: seq<Field>, i: nat, members: seq<Member>)
    requires i < |fields|
    decreases fields, 0
  {
    assert fields decreases to fields[i];
    Conforms(fields[i].spec, Lookup(members, fields[i].key))
  }

  lemma {:induction false} FieldsConformSnoc(fields: seq<Field>, members: seq<Member>)
    requires fields != []
    ensures var n := |fields| - 1;
            FieldsConform(fields, members)
            <==> FieldsConform(fields[..n], members) && Conforms(fields[n].spec, Lookup(members, fields[n].key))
  {
    var n := |fields| - 1;
    var init := fields[..n];
    if FieldsConform(fields, members) {
      forall i | 0 <= i < n ensures FieldConforms(init, i, members) {
        assert FieldConforms(fields, i, members);
      }
      assert FieldConforms(fields, n, members);
    }
    if FieldsConform(init, members) && Conforms(fields[n].spec, Lookup(members, fields[n].key)) {
      forall i | 0 <= i < |fields| ensures FieldConforms(fields, i, members) {
        assert i < n ==> FieldConforms(init, i, members);
      }
    }
  }

  /** No violation is reported exactly when the property conforms. */
  lemma {:induction false} CleanMeansConforms(spec: Spec, p: Property, path: seq<Step>)
    ensures Violations(spec, p, path) == [] <==> Conforms(spec, p)
    decreases spec, 2
  {
    if p.Present? && !p.value.Null? {
      ScalarProblemExactly(spec.kind, p.value);
    }
    if p.Present? && !p.value.Null? && ScalarFits(spec.kind, p.value) {
      match spec.kind
      case ObjectKind(fields) =>
        CleanFields(fields, p.value.members, path);
      case ArrayKind(items) =>
        CleanItems(items, p.value.items, path);
      case RecordKind(values) =>
        CleanValues(values, p.value.members, path);
      case _ =>
    }
  }

  lemma {:induction false} CleanFields(fields: seq<Field>, members: seq<Member>, path: seq<Step>)
    ensures FieldViolations(fields, members, path) == [] <==> FieldsConform(fields, members)
    decreases fields, 0
  {
    if fields != [] {
      var n := |fields| - 1;
      assert fields decreases to fields[n];
      CleanFields(fields[..n], members, path);
      CleanMeansConforms(fields[n].spec, Lookup(members, fields[n].key), path + [Key(fields[n].key)]);
      FieldsConformSnoc(fields, members);
    }
  }

  lemma {:induction false} CleanItems(items: Spec, values: seq<Json>, path: seq<Step>)
    ensures ItemViolations(items, values, path) == [] <==> forall i :: 0 <= i < |values| ==> Conforms(items, Present(values[i]))
    decreases items, 3, values
  {
    if values != [] {
      var n := |values| - 1;
      CleanItems(items, values[..n], path);
      CleanMeansConforms(items, Present(values[n]), path + [Index(n)]);
      assert forall i :: 0 <= i < n ==> values[..n][i] == values[i];
    }
  }

  lemma {:induction false} CleanValues(values: Spec, members: seq<Member>, path: seq<Step>)
    ensures ValueViolations(values, members, path) == []
       <==> forall i :: 0 <= i < |members| ==> Conforms(values, Present(members[i].value))
    decreases values, 3, members
  {
    if members != [] {
      var n := |members| - 1;
      CleanValues(values, members[..n], path);
      CleanMeansConforms(values, Present(members[n].value), path + [Key(members[n].key)]);
      assert forall i :: 0 <= i < n ==> members[..n][i] == members[i];
    }
  }

  // ----- Additive changes -----

  predicate Named(fields: seq<Field>, key: string) {
    exists i :: 0 <= i < |fields| && fields[i].key == key
  }

  /**
   * `w` is `v` with one key added that the schema does not name, at the top or anywhere below an object
   * field, an array item or a record value.
   */
  ghost predicate Adds(spec: Spec, v: Json, w: Json)
    decreases v
  {
    match spec.kind
    case ObjectKind(fields) =>
      && v.Object? && w.Object?
      && (|| (exists i, m :: 0 <= i <= |v.members| && Inserted(v.members, w.members, i, m) && !Named(fields, m.key))
          || (exists i, f :: 0 <= i < |v.members| && 0 <= f < |fields| && AddsBelow(fields[f].spec, v.members, w.members, i)
                             && fields[f].key == v.members[i].key && Unique(fields, f)))
    case ArrayKind(items) =>
      && v.Array? && w.Array? && |v.items| == |w.items|
      && exists i :: 0 <= i < |v.items| && AddsItem(items, v.items, w.items, i)
    case RecordKind(values) =>
      && v.Object? && w.Object?
      && exists i :: 0 <= i < |v.members| && AddsBelow(values, v.members, w.members, i)
    case _ => false
  }

  predicate Inserted(before: seq<Member>, after: seq<Member>, i: nat, m: Member)
    requires i <= |before|
  {
    after == before[..i] + [m] + before[i..]
  }

  /** The schema names the key once. */
  predicate Unique(fields: seq<Field>, f: nat)
    requires f < |fields|
  {
    forall g :: 0 <= g < |fields| && g != f ==> fields[g].key != fields[f].key
  }

  ghost predicate AddsBelow(spec: Spec, before: seq<Member>, after: seq<Member>, i: nat)
    requires i < |before|
    decreases before, 0
  {
    assert before decreases to before[i];
    && |after| == |before| && after[i].key == before[i].key && Adds(spec, before[i].value, after[i].value)
    && forall j :: 0 <= j < |before| && j != i ==> after[j] == before[j]
  }

  ghost predicate AddsItem(spec: Spec, before: seq<Json>, after: seq<Json>, i: nat)
    requires i < |before| && |after| == |before|
    decreases before, 0
  {
    assert before decreases to before[i];
    && Adds(spec, before[i], after[i])
    && forall j :: 0 <= j < |before| && j != i ==> after[j] == before[j]
  }

  lemma {:induction false} LookupInserted(before: seq<Member>, after: seq<Member>, i: nat, m: Member, key: string)
    requires i <= |before| && Inserted(before, after, i, m) && m.key != key
    ensures Lookup(after, key) == Lookup(before, key)
  {
    if i == 0 {
      assert after[1..] == before;
    } else {
      assert after[1..] == before[1..][..i - 1] + [m] + before[1..][i - 1..];
      LookupInserted(before[1..], after[1..], i - 1, m, key);
    }
  }

  /** Changing one member's value changes only what its key finds. */
  lemma {:induction false} LookupChanged(before: seq<Member>, after: seq<Member>, i: nat, key: string)
    requires i < |before| && |after| == |before| && after[i].key == before[i].key
    requires forall j :: 0 <= j < |before| && j != i ==> after[j] == before[j]
    ensures || Lookup(after, key) == Lookup(before, key)
            || (key == before[i].key && Lookup(before, key) == Present(before[i].value) && Lookup(after, key) == Present(after[i].value))
  {
    if before[0].key != key && i > 0 {
      LookupChanged(before[1..], after[1..], i - 1, key);
    } else if before[0].key != key {
      assert after[1..] == before[1..];
    }
  }

  /** Adding a key the schema does not name, at any depth, never changes the reported violations. */
  lemma {:induction false} AdditiveTolerance(spec: Spec, v: Json, w: Json, path: seq<Step>)
    requires Adds(spec, v, w)
    ensures Violations(spec, Present(w), path) == Violations(spec, Present(v), path)
    decreases v
  {
    match spec.kind
    case ObjectKind(fields) =>
      if i, m :| 0 <= i <= |v.members| && Inserted(v.members, w.members, i, m) && !Named(fields, m.key) {
        InsertedFields(fields, v.members, w.members, i, m, path);
      } else {
        var i, f :| 0 <= i < |v.members| && 0 <= f < |fields| && AddsBelow(fields[f].spec, v.members, w.members, i)
                    && fields[f].key == v.members[i].key && Unique(fields, f);
        ChangedFields(fields, fields, f, v.members, w.members, i, path);
      }
    case ArrayKind(items) =>
      var i :| 0 <= i < |v.items| && AddsItem(items, v.items, w.items, i);
      ChangedItems(items, v.items, w.items, i, |v.items|, path);
    case RecordKind(values) =>
      var i :| 0 <= i < |v.members| && AddsBelow(values, v.members, w.members, i);
      ChangedValues(values, v.members, w.members, i, |v.members|, path);
  }

  lemma {:induction false} InsertedFields(fields: seq<Field>, before: seq<Member>, after: seq<Member>, i: nat, m: Member,
                                          path: seq<Step>)
    requires i <= |before| && Inserted(before, after, i, m) && !Named(fields, m.key)
    ensures FieldViolations(fields, after, path) == FieldViolations(fields, before, path)
  {
    if fields != [] {
      var n := |fields| - 1;
      forall k | 0 <= k < n ensures fields[..n][k].key != m.key {
        assert fields[k].key != m.key;
      }
      InsertedFields(fields[..n], before, after, i, m, path);
      assert fields[n].key != m.key;
      LookupInserted(before, after, i, m, fields[n].key);
    }
  }

  lemma {:induction false} ChangedFields(all: seq<Field>, fields: seq<Field>, f: nat, before: seq<Member>, after: seq<Member>,
                                         i: nat, path: seq<Step>)
    requires fields <= all && f < |all| && Unique(all, f)
    requires i < |before| && AddsBelow(all[f].spec, before, after, i) && all[f].key == before[i].key
    ensures FieldViolations(fields, after, path) == FieldViolations(fields, before, path)
    decreases before, |fields|
  {
    if fields != [] {
      var n := |fields| - 1;
      assert fields[n] == all[n];
      ChangedFields(all, fields[..n], f, before, after, i, path);
      LookupChanged(before, after, i, all[n].key);
      if n == f {
        assert before decreases to before[i];
        AdditiveTolerance(all[f].spec, before[i].value, after[i].value, path + [Key(all[f].key)]);
      }
    }
  }

  lemma {:induction false} ChangedItems(items: Spec, before: seq<Json>, after: seq<Json>, i: nat, n: nat, path: seq<Step>)
    requires |after| == |before| && i < |before| && n <= |before| && AddsItem(items, before, after, i)
    ensures ItemViolations(items, after[..n], path) == ItemViolations(items, before[..n], path)
    ensures n == |before| ==> ItemViolations(items, after, path) == ItemViolations(items, before, path)
    decreases before, n
  {
    assert before[..|before|] == before && after[..|after|] == after;
    if n > 0 {
      ChangedItems(items, before, after, i, n - 1, path);
      assert before[..n][..n - 1] == before[..n - 1] && after[..n][..n - 1] == after[..n - 1];
      if n - 1 == i {
        assert before decreases to before[i];
        AdditiveTolerance(items, before[i], after[i], path + [Index(i)]);
      }
    }
  }

  lemma {:induction false} ChangedValues(values: Spec, before: seq<Member>, after: seq<Member>, i: nat, n: nat, path: seq<Step>)
    requires i < |before| && n <= |before| && AddsBelow(values, before, after, i)
    ensures ValueViolations(values, after[..n], path) == ValueViolations(values, before[..n], path)
    ensures n == |before| ==> ValueViolations(values, after, path) == ValueViolations(values, before, path)
    decreases before, n
  {
    assert before[..|before|] == before && after[..|after|] == after;
    if n > 0 {
      ChangedValues(values, before, after, i, n - 1, path);
      assert before[..n][..n - 1] == before[..n - 1] && after[..n][..n - 1] == after[..n - 1];
      if n - 1 == i {
        assert before decreases to before[i];
        AdditiveTolerance(values, before[i].value, after[i].value, path + [Key(before[i].key)]);
      }
    }
  }

  // ----- The code: violations pushed into a shared list -----

  class Report {
    var out: seq<Violation>

    constructor ()
      ensures out == []
    {
      out := [];
    }

    method CheckField(spec: Spec, p: Property, path: seq<Step>)
      modifies this
      ensures out == old(out) + Violations(spec, p, path)
      decreases spec, 2
    {
      if p.Missing? {
        if !spec.optional {
          out := out + [Violation(path, spec.kind, Absent)];
        }
        return;
      }
      if p.value.Null? {
        if !spec.nullable {
          out := out + [Violation(path, spec.kind, IsNull)];
        }
        return;
      }
      var problem := ScalarProblem(spec.kind, p.value);
      if problem.Some? {
        out := out + [Violation(path, spec.kind, problem.value)];
        return;
      }
      match spec.kind {
        case ObjectKind(fields) => CheckObject(fields, p.value.members, path);
        case ArrayKind(items) => CheckItems(items, p.value.items, path);
        case RecordKind(values) => CheckValues(values, p.value.members, path);
        case _ =>
      }
    }

    method CheckObject(fields: seq<Field>, members: seq<Member>, path: seq<Step>)
      modifies this
      ensures out == old(out) + FieldViolations(fields, members, path)
      decreases fields, 0
    {
      for i := 0 to |fields|
        invariant out == old(out) + FieldViolations(fields[..i], members, path)
      {
        assert fields[..i + 1][..i] == fields[..i] && fields[..i + 1][i] == fields[i];
        assert fields decreases to fields[i];
        CheckField(fields[i].spec, Lookup(members, fields[i].key), path + [Key(fields[i].key)]);
      }
      assert fields[..|fields|] == fields;
    }

    method CheckItems(items: Spec, values: seq<Json>, path: seq<Step>)
      modifies this
      ensures out == old(out) + ItemViolations(items, values, path)
      decreases items, 3
    {
      for i := 0 to |values|
        invariant out == old(out) + ItemViolations(items, values[..i], path)
      {
        assert values[..i + 1][..i] == values[..i] && values[..i + 1][i] == values[i];
        CheckField(items, Present(values[i]), path + [Index(i)]);
      }
      assert values[..|values|] == values;
    }

    method CheckValues(values: Spec, members: seq<Member>, path: seq<Step>)
      modifies this
      ensures out == old(out) + ValueViolations(values, members, path)
      decreases values, 3
    {
      for i := 0 to |members|
        invariant out == old(out) + ValueViolations(values, members[..i], path)
      {
        assert members[..i + 1][..i] == members[..i] && members[..i + 1][i] == members[i];
        CheckField(values, Present(members[i].value), path + [Key(members[i].key)]);
      }
      assert members[..|members|] == members;
    }
  }

  /** An endpoint's schema is an object; its root may be neither missing nor null. */
  method ValidateIndexerResponse(fields: seq<Field>, body: Json) returns (out: seq<Violation>)
    ensures out == [] <==> Conforms(Spec(ObjectKind(fields), false, false), Present(body))
    ensures forall v :: v in out <==> Points(Spec(ObjectKind(fields), false, false), Present(body), [], v)
  {
    var root := Spec(ObjectKind(fields), false, false);
    CleanMeansConforms(root, Present(body), []);
    forall v ensures v in Violations(root, Present(body), []) <==> Points(root, Present(body), [], v) {
      ViolationsExactly(root, Present(body), [], v);
    }
    if !body.Object? {
      return [Violation([], ObjectKind(fields), Describe(body))];
    }
    var report := new Report();
    report.CheckObject(fields, body.members, []);
    return report.out;
  }
}
