/**
 * The two request models of the service and the record it stores.
 *
 * `Patient` is the validated create body; its constraints are those of its
 * field annotations. `PatientUpdate` carries the same constraints on optional
 * fields. A stored `Record` is a patient dumped without its id and with the
 * two computed fields, bmi and verdict.
 */
module Records {
  import opened Metrics

  datatype Option<T> = None | Some(value: T)

  datatype Result<T, E> = Ok(value: T) | Err(error: E)

  /** The declared fields of `Patient`, in declaration order. */
  datatype Field = Id | Name | City | Age | Gender | Height | Weight

  const Fields: seq<Field> := [Id, Name, City, Age, Gender, Height, Weight]

  lemma FieldListed(f: Field)
    ensures f in Fields
  {
    match f
    case Id => assert Fields[0] == Id;
    case Name => assert Fields[1] == Name;
    case City => assert Fields[2] == City;
    case Age => assert Fields[3] == Age;
    case Gender => assert Fields[4] == Gender;
    case Height => assert Fields[5] == Height;
    case Weight => assert Fields[6] == Weight;
  }

  /** The values of the `gender` literal type. */
  const Genders: set<string> := {"male", "female", "others"}

  /**
   * A body before validation: `None` stands for a field that is missing or
   * null, both of which a required field rejects.
   */
  datatype Candidate = Candidate(
    id: Option<string>,
    name: Option<string>,
    city: Option<string>,
    age: Option<int>,
    gender: Option<string>,
    height: Option<real>,
    weight: Option<real>)

  /** A validated patient. */
  datatype Patient = Patient(
    id: string,
    name: string,
    city: string,
    age: int,
    gender: string,
    height: real,
    weight: real)

  /** What the table holds for one id: the dumped patient, without `id`. */
  datatype Record = Record(
    name: string,
    city: string,
    age: int,
    gender: string,
    height: real,
    weight: real,
    bmi: real,
    verdict: Verdict)

  predicate AgeOk(age: int) { 0 < age < 120 }
  predicate GenderOk(gender: string) { gender in Genders }
  predicate MeasureOk(x: real) { x > 0.0 }

  /** The constraint the `Patient` model places on one field of a body. */
  predicate FieldOk(c: Candidate, f: Field) {
    match f
    case Id => c.id.Some?
    case Name => c.name.Some?
    case City => c.city.Some?
    case Age => c.age.Some? && AgeOk(c.age.value)
    case Gender => c.gender.Some? && GenderOk(c.gender.value)
    case Height => c.height.Some? && MeasureOk(c.height.value)
    case Weight => c.weight.Some? && MeasureOk(c.weight.value)
  }

  ghost predicate PatientValid(p: Patient) {
    AgeOk(p.age) && GenderOk(p.gender) && MeasureOk(p.height) && MeasureOk(p.weight)
  }

  /** The body that a validated patient came from. */
  function AsCandidate(p: Patient): Candidate {
    Candidate(Some(p.id), Some(p.name), Some(p.city), Some(p.age), Some(p.gender),
              Some(p.height), Some(p.weight))
  }

  /** No element occurs twice. */
  predicate Distinct<T(==)>(s: seq<T>) {
    forall i, j :: 0 <= i < j < |s| ==> s[i] != s[j]
  }

  /** `a` is `b` with some elements left out and the rest in their order. */
  ghost predicate Subsequence<T>(a: seq<T>, b: seq<T>) {
    if b == [] then a == []
    else (a != [] && a[0] == b[0] && Subsequence(a[1..], b[1..])) || Subsequence(a, b[1..])
  }

  /** The fields of `fs` that `c` violates, in the order of `fs`. */
  function ViolatedAmong(c: Candidate, fs: seq<Field>): (errs: seq<Field>)
    ensures forall f :: f in errs <==> f in fs && !FieldOk(c, f)
    ensures Subsequence(errs, fs)
    ensures Distinct(fs) ==> Distinct(errs)
  {
    if fs == [] then []
    else
      var rest := ViolatedAmong(c, fs[1..]);
      if FieldOk(c, fs[0]) then rest
      else
        assert Distinct(fs) ==> fs[0] !in fs[1..];
        assert ([fs[0]] + rest)[1..] == rest;
        [fs[0]] + rest
  }

  /**
   * Validation of a `Patient` body: either the patient, or every violated
   * field (not only the first), in declaration order.
   */
  function Validate(c: Candidate): (r: Result<Patient, seq<Field>>)
    ensures r.Ok? <==> forall f :: FieldOk(c, f)
    ensures r.Ok? ==> PatientValid(r.value) && AsCandidate(r.value) == c
    ensures r.Err? ==> r.error != [] && forall f :: f in r.error <==> !FieldOk(c, f)
  {
    var errs := ViolatedAmong(c, Fields);
    if errs == [] then
      assert forall f :: FieldOk(c, f) by { forall f ensures FieldOk(c, f) { FieldListed(f); } }
      assert FieldOk(c, Id) && FieldOk(c, Name) && FieldOk(c, City) && FieldOk(c, Age);
      assert FieldOk(c, Gender) && FieldOk(c, Height) && FieldOk(c, Weight);
      Ok(Patient(c.id.value, c.name.value, c.city.value, c.age.value, c.gender.value,
                 c.height.value, c.weight.value))
    else
      assert errs[0] in errs;
      Err(errs)
  }

  /** The position of a field in declaration order. */
  function Position(f: Field): nat {
    match f
    case Id => 0
    case Name => 1
    case City => 2
    case Age => 3
    case Gender => 4
    case Height => 5
    case Weight => 6
  }

  /** A rejection names each violated field once, in declaration order. */
  lemma {:induction false} ValidateOrdered(c: Candidate)
    requires Validate(c).Err?
    ensures Subsequence(Validate(c).error, Fields) && Distinct(Validate(c).error)
  {
    assert forall i :: 0 <= i < |Fields| ==> Position(Fields[i]) == i;
    assert Distinct(Fields);
  }

  /** Validation accepts every valid patient's own body and gives it back. */
  lemma ValidateRoundTrip(p: Patient)
    requires PatientValid(p)
    ensures Validate(AsCandidate(p)) == Ok(p)
  {
  }

  /** `model_dump(exclude={'id'})`: the stored form, with both computed fields. */
  function Dump(p: Patient): (r: Record)
    ensures Current(r) == AsCandidate(p).(id := None)
    ensures r.bmi == Bmi(p.height, p.weight) && r.verdict == Classify(r.bmi)
  {
    var bmi := Bmi(p.height, p.weight);
    Record(p.name, p.city, p.age, p.gender, p.height, p.weight, bmi, Classify(bmi))
  }

  /**
   * A record as the store keeps it: it satisfies the `Patient` constraints
   * and its bmi and verdict are those of its own height and weight.
   */
  ghost predicate RecordValid(r: Record) {
    && AgeOk(r.age) && GenderOk(r.gender) && MeasureOk(r.height) && MeasureOk(r.weight)
    && r.bmi == Bmi(r.height, r.weight)
    && r.verdict == Classify(r.bmi)
  }

  /** Every dumped valid patient is a valid record, with no division by zero. */
  lemma {:induction false} DumpValid(p: Patient)
    requires PatientValid(p)
    ensures RecordValid(Dump(p))
    ensures Dump(p).bmi >= 0.0
  {
    BmiNonNegative(p.height, p.weight);
  }

  // ---------------------------------------------------------------------
  // Partial updates

  /**
   * One optional field of `PatientUpdate` after `exclude_unset`: `Unset` when
   * the body did not mention it, `Set(None)` when it gave an explicit null.
   */
  datatype Slot<T> = Unset | Set(given: Option<T>)

  datatype PatientUpdate = PatientUpdate(
    name: Slot<string>,
    city: Slot<string>,
    age: Slot<int>,
    gender: Slot<string>,
    height: Slot<real>,
    weight: Slot<real>)

  /** The constraint `PatientUpdate` places on one field: only given values are checked. */
  predicate UpdateFieldOk(u: PatientUpdate, f: Field) {
    match f
    case Id => true
    case Name => true
    case City => true
    case Age => u.age.Set? && u.age.given.Some? ==> AgeOk(u.age.given.value)
    case Gender => u.gender.Set? && u.gender.given.Some? ==> GenderOk(u.gender.given.value)
    case Height => u.height.Set? && u.height.given.Some? ==> MeasureOk(u.height.given.value)
    case Weight => u.weight.Set? && u.weight.given.Some? ==> MeasureOk(u.weight.given.value)
  }

  /** Validation of an update body: every field whose given value breaks its constraint. */
  function UpdateViolations(u: PatientUpdate): (errs: seq<Field>)
    ensures forall f :: f in errs <==> !UpdateFieldOk(u, f)
  {
    (if UpdateFieldOk(u, Age) then [] else [Age])
    + (if UpdateFieldOk(u, Gender) then [] else [Gender])
    + (if UpdateFieldOk(u, Height) then [] else [Height])
    + (if UpdateFieldOk(u, Weight) then [] else [Weight])
  }

  /** Does the update set `f` to an explicit null? */
  predicate IsNulled(u: PatientUpdate, f: Field) {
    match f
    case Id => false
    case Name => u.name == Set(None)
    case City => u.city == Set(None)
    case Age => u.age == Set(None)
    case Gender => u.gender == Set(None)
    case Height => u.height == Set(None)
    case Weight => u.weight == Set(None)
  }

  /** The fields an update sets to an explicit null, in declaration order. */
  function NullFields(u: PatientUpdate): (fs: seq<Field>)
    ensures forall f :: f in fs <==> IsNulled(u, f)
  {
    (if u.name == Set(None) then [Name] else [])
    + (if u.city == Set(None) then [City] else [])
    + (if u.age == Set(None) then [Age] else [])
    + (if u.gender == Set(None) then [Gender] else [])
    + (if u.height == Set(None) then [Height] else [])
    + (if u.weight == Set(None) then [Weight] else [])
  }

  /** One item of `model_dump(exclude_unset=True)`: a field and the value given for it. */
  datatype Item =
    | NameItem(name: Option<string>)
    | CityItem(city: Option<string>)
    | AgeItem(age: Option<int>)
    | GenderItem(gender: Option<string>)
    | HeightItem(height: Option<real>)
    | WeightItem(weight: Option<real>)

  /** `item` carries the value that `u` gives for the item's field. */
  predicate Given(u: PatientUpdate, item: Item) {
    match item
    case NameItem(v) => u.name == Set(v)
    case CityItem(v) => u.city == Set(v)
    case AgeItem(v) => u.age == Set(v)
    case GenderItem(v) => u.gender == Set(v)
    case HeightItem(v) => u.height == Set(v)
    case WeightItem(v) => u.weight == Set(v)
  }

  /** The fields a `PatientUpdate` may set, in declaration order. */
  const Updatable: seq<Field> := [Name, City, Age, Gender, Height, Weight]

  /** The item of field `f`: the given value when `u` sets `f`, nothing otherwise. */
  function ItemOf(u: PatientUpdate, f: Field): (its: seq<Item>)
    ensures |its| <= 1
    ensures forall it :: it in its ==> Given(u, it)
  {
    match f
    case Id => []
    case Name => if u.name.Set? then [NameItem(u.name.given)] else []
    case City => if u.city.Set? then [CityItem(u.city.given)] else []
    case Age => if u.age.Set? then [AgeItem(u.age.given)] else []
    case Gender => if u.gender.Set? then [GenderItem(u.gender.given)] else []
    case Height => if u.height.Set? then [HeightItem(u.height.given)] else []
    case Weight => if u.weight.Set? then [WeightItem(u.weight.given)] else []
  }

  /** The items of the fields `fs`, in the order of `fs`. */
  function ItemsOf(u: PatientUpdate, fs: seq<Field>): (its: seq<Item>)
    ensures forall it :: it in its ==> Given(u, it)
    ensures forall f, it :: f in fs && it in ItemOf(u, f) ==> it in its
  {
    if fs == [] then [] else ItemOf(u, fs[0]) + ItemsOf(u, fs[1..])
  }

  /**
   * `model_dump(exclude_unset=True)`: one item for each field the update
   * sets, with the value given for it (an explicit null included), and
   * nothing for the fields it leaves unset.
   */
  function Items(u: PatientUpdate): (its: seq<Item>)
    ensures forall it :: it in its ==> Given(u, it)
    ensures u.name.Set? ==> NameItem(u.name.given) in its
    ensures u.city.Set? ==> CityItem(u.city.given) in its
    ensures u.age.Set? ==> AgeItem(u.age.given) in its
    ensures u.gender.Set? ==> GenderItem(u.gender.given) in its
    ensures u.height.Set? ==> HeightItem(u.height.given) in its
    ensures u.weight.Set? ==> WeightItem(u.weight.given) in its
  {
    assert Updatable[0] == Name && Updatable[1] == City && Updatable[2] == Age;
    assert Updatable[3] == Gender && Updatable[4] == Height && Updatable[5] == Weight;
    assert u.name.Set? ==> NameItem(u.name.given) in ItemOf(u, Name);
    assert u.city.Set? ==> CityItem(u.city.given) in ItemOf(u, City);
    assert u.age.Set? ==> AgeItem(u.age.given) in ItemOf(u, Age);
    assert u.gender.Set? ==> GenderItem(u.gender.given) in ItemOf(u, Gender);
    assert u.height.Set? ==> HeightItem(u.height.given) in ItemOf(u, Height);
    assert u.weight.Set? ==> WeightItem(u.weight.given) in ItemOf(u, Weight);
    ItemsOf(u, Updatable)
  }

  function Pick<T>(s: Slot<T>, current: Option<T>): Option<T> {
    if s.Set? then s.given else current
  }

  /**
   * Reference definition of the merge: each field the update sets takes the
   * given value, every other field keeps the current one.
   */
  function Merged(info: Candidate, u: PatientUpdate): Candidate {
    Candidate(info.id, Pick(u.name, info.name), Pick(u.city, info.city), Pick(u.age, info.age),
              Pick(u.gender, info.gender), Pick(u.height, info.height), Pick(u.weight, info.weight))
  }

  /** The update that sets only the field of `item`, to the item's value. */
  function Single(item: Item): PatientUpdate {
    match item
    case NameItem(v) => PatientUpdate(Set(v), Unset, Unset, Unset, Unset, Unset)
    case CityItem(v) => PatientUpdate(Unset, Set(v), Unset, Unset, Unset, Unset)
    case AgeItem(v) => PatientUpdate(Unset, Unset, Set(v), Unset, Unset, Unset)
    case GenderItem(v) => PatientUpdate(Unset, Unset, Unset, Set(v), Unset, Unset)
    case HeightItem(v) => PatientUpdate(Unset, Unset, Unset, Unset, Set(v), Unset)
    case WeightItem(v) => PatientUpdate(Unset, Unset, Unset, Unset, Unset, Set(v))
  }

  /** `info[key] = value` for one item: the merge of an update setting that one field. */
  function Assign(info: Candidate, item: Item): (r: Candidate)
    ensures r == Merged(info, Single(item))
  {
    match item
    case NameItem(v) => info.(name := v)
    case CityItem(v) => info.(city := v)
    case AgeItem(v) => info.(age := v)
    case GenderItem(v) => info.(gender := v)
    case HeightItem(v) => info.(height := v)
    case WeightItem(v) => info.(weight := v)
  }

  /** The effect of assigning `items` one after the other. */
  function AssignAll(info: Candidate, items: seq<Item>): Candidate
    decreases items
  {
    if items == [] then info else AssignAll(Assign(info, items[0]), items[1..])
  }

  lemma {:induction false} AssignAllAppend(info: Candidate, xs: seq<Item>, ys: seq<Item>)
    ensures AssignAll(info, xs + ys) == AssignAll(AssignAll(info, xs), ys)
    decreases xs
  {
    if xs == [] {
      assert xs + ys == ys;
    } else {
      assert (xs + ys)[0] == xs[0];
      assert (xs + ys)[1..] == xs[1..] + ys;
      AssignAllAppend(Assign(info, xs[0]), xs[1..], ys);
    }
  }

  /** Assigning no item or a single one. */
  lemma AssignAllShort(info: Candidate, xs: seq<Item>)
    requires |xs| <= 1
    ensures AssignAll(info, xs) == if xs == [] then info else Assign(info, xs[0])
  {
    if xs != [] {
      assert xs[1..] == [];
    }
  }

  /** Field `f` of `info` merged as `u` says, the other fields kept. */
  function MergeField(info: Candidate, u: PatientUpdate, f: Field): Candidate {
    match f
    case Id => info
    case Name => info.(name := Pick(u.name, info.name))
    case City => info.(city := Pick(u.city, info.city))
    case Age => info.(age := Pick(u.age, info.age))
    case Gender => info.(gender := Pick(u.gender, info.gender))
    case Height => info.(height := Pick(u.height, info.height))
    case Weight => info.(weight := Pick(u.weight, info.weight))
  }

  /** The fields `fs` merged one after the other. */
  function MergeFields(info: Candidate, u: PatientUpdate, fs: seq<Field>): Candidate
    decreases fs
  {
    if fs == [] then info else MergeFields(MergeField(info, u, fs[0]), u, fs[1..])
  }

  /** Assigning the item of one field merges that field. */
  lemma AssignItemOf(info: Candidate, u: PatientUpdate, f: Field)
    ensures AssignAll(info, ItemOf(u, f)) == MergeField(info, u, f)
  {
    AssignAllShort(info, ItemOf(u, f));
  }

  /** Assigning the items of the fields `fs` merges those fields, in order. */
  lemma {:induction false} AssignItemsOf(info: Candidate, u: PatientUpdate, fs: seq<Field>)
    ensures AssignAll(info, ItemsOf(u, fs)) == MergeFields(info, u, fs)
    decreases fs
  {
    if fs != [] {
      AssignAllAppend(info, ItemOf(u, fs[0]), ItemsOf(u, fs[1..]));
      AssignItemOf(info, u, fs[0]);
      AssignItemsOf(MergeField(info, u, fs[0]), u, fs[1..]);
    }
  }

  /** Assigning the items of an update one by one yields the reference merge. */
  lemma {:induction false} AssignItemsIsMerge(info: Candidate, u: PatientUpdate)
    ensures AssignAll(info, Items(u)) == Merged(info, u)
  {
    AssignItemsOf(info, u, Updatable);
    assert MergeFields(info, u, Updatable) == Merged(info, u);
  }

  /** The loop of the update handler: assign each item, in order, over `info`. */
  method AssignEach(info: Candidate, items: seq<Item>) returns (m: Candidate)
    ensures m == AssignAll(info, items)
  {
    m := info;
    var i := 0;
    while i < |items|
      invariant 0 <= i <= |items|
      invariant m == AssignAll(info, items[..i])
    {
      assert items[..i + 1] == items[..i] + [items[i]];
      AssignAllAppend(info, items[..i], [items[i]]);
      AssignAllShort(m, [items[i]]);
      m := Assign(m, items[i]);
      i := i + 1;
    }
    assert items[..i] == items;
  }

  /**
   * The merge step of the update handler: dump the set fields of the update
   * and copy each of them over the current field values.
   */
  method MergeUpdate(info: Candidate, u: PatientUpdate) returns (m: Candidate)
    ensures m == Merged(info, u)
    ensures m.id == info.id
    ensures m.name == Pick(u.name, info.name) && m.city == Pick(u.city, info.city)
    ensures m.age == Pick(u.age, info.age) && m.gender == Pick(u.gender, info.gender)
    ensures m.height == Pick(u.height, info.height) && m.weight == Pick(u.weight, info.weight)
  {
    var items := Items(u);
    m := AssignEach(info, items);
    AssignItemsIsMerge(info, u);
  }

  /** The current values of a stored record as the update handler sees them; it has no id yet. */
  function Current(r: Record): Candidate {
    Candidate(None, Some(r.name), Some(r.city), Some(r.age), Some(r.gender),
              Some(r.height), Some(r.weight))
  }

  function Overwrite<T>(s: Slot<T>, current: T): T {
    if s.Set? && s.given.Some? then s.given.value else current
  }

  /**
   * Reference definition of a successful update of a stored record: the given
   * fields replace the old ones and bmi/verdict follow the merged height and
   * weight.
   */
  function Updated(r: Record, u: PatientUpdate): Record {
    var height := Overwrite(u.height, r.height);
    var weight := Overwrite(u.weight, r.weight);
    Record(Overwrite(u.name, r.name), Overwrite(u.city, r.city), Overwrite(u.age, r.age),
           Overwrite(u.gender, r.gender), height, weight, Bmi(height, weight),
           Classify(Bmi(height, weight)))
  }

  /** The patient a successful re-validation builds: the merged values under the path id. */
  function MergedPatient(r: Record, id: string, u: PatientUpdate): Patient {
    Patient(id, Overwrite(u.name, r.name), Overwrite(u.city, r.city), Overwrite(u.age, r.age),
            Overwrite(u.gender, r.gender), Overwrite(u.height, r.height), Overwrite(u.weight, r.weight))
  }

  /** Where the update gives no null, merging over a present value overwrites it. */
  lemma PickPresent<T>(s: Slot<T>, x: T)
    requires s != Set(None)
    ensures Pick(s, Some(x)) == Some(Overwrite(s, x))
  {
  }

  /** One merged field breaks its constraint exactly when the update nulls it. */
  lemma MergedFieldOk(r: Record, id: string, u: PatientUpdate, f: Field)
    requires RecordValid(r) && UpdateFieldOk(u, f)
    ensures !FieldOk(Merged(Current(r), u).(id := Some(id)), f) <==> IsNulled(u, f)
  {
  }

  /**
   * Re-validating the merged fields, as the update handler does by building
   * a new `Patient`, fails exactly on the fields the update set to null, and
   * otherwise stores the reference update.
   */
  lemma {:induction false} RevalidateMerged(r: Record, id: string, u: PatientUpdate)
    requires RecordValid(r) && UpdateViolations(u) == []
    ensures var v := Validate(Merged(Current(r), u).(id := Some(id)));
      && (v.Ok? <==> NullFields(u) == [])
      && (v.Err? ==> forall f :: f in v.error <==> f in NullFields(u))
      && (v.Ok? ==> v.value.id == id && Dump(v.value) == Updated(r, u) && PatientValid(v.value))
  {
    var c := Merged(Current(r), u).(id := Some(id));
    forall f
      ensures !FieldOk(c, f) <==> f in NullFields(u)
    {
      assert UpdateFieldOk(u, f);
      MergedFieldOk(r, id, u, f);
    }
    if NullFields(u) == [] {
      var p := MergedPatient(r, id, u);
      assert !IsNulled(u, Name) && !IsNulled(u, City) && !IsNulled(u, Age);
      assert !IsNulled(u, Gender) && !IsNulled(u, Height) && !IsNulled(u, Weight);
      PickPresent(u.name, r.name);
      PickPresent(u.city, r.city);
      PickPresent(u.age, r.age);
      PickPresent(u.gender, r.gender);
      PickPresent(u.height, r.height);
      PickPresent(u.weight, r.weight);
      assert AsCandidate(p) == c;
      assert FieldOk(c, Age) && FieldOk(c, Gender) && FieldOk(c, Height) && FieldOk(c, Weight);
      ValidateRoundTrip(p);
    } else {
      assert NullFields(u)[0] in NullFields(u);
    }
  }

  /** A successful update keeps the record valid: bmi and verdict are never stale. */
  lemma UpdatedValid(r: Record, u: PatientUpdate)
    requires RecordValid(r) && UpdateViolations(u) == []
    ensures RecordValid(Updated(r, u))
  {
    assert UpdateFieldOk(u, Age) && UpdateFieldOk(u, Gender);
    assert UpdateFieldOk(u, Height) && UpdateFieldOk(u, Weight);
  }

  /** An update that sets neither height nor weight leaves bmi and verdict as they were. */
  lemma UpdateKeepsMetrics(r: Record, u: PatientUpdate)
    requires RecordValid(r)
    requires u.height == Unset && u.weight == Unset
    ensures Updated(r, u).bmi == r.bmi && Updated(r, u).verdict == r.verdict
  {
  }
}
