# Patient record service — a Dafny model

The service keeps a table of patient records keyed by a string id. A client
can create a patient, view one, update some of its fields, delete it, and
list all patients sorted by height, weight or body-mass index (bmi). Each
stored record carries two derived fields: `bmi`, which is weight / height²
rounded to hundredths, and `verdict`, a four-band classification of that
bmi. This project models that core and proves its properties.

Modules, leaves first:

- `Metrics` (`metrics.dfy`) holds rounding to hundredths with ties to even,
  the `bmi` computed field with its guard for a non-positive height, and the
  `Verdict` classifier with its bands (Underweight, Normal, Overweight,
  Obesity).
- `Records` (`records.dfy`) holds the request models and the stored record:
  - `Validate` checks a create body against the `Patient` field constraints
    and reports every violated field.
  - `UpdateViolations` checks a `PatientUpdate` body.
  - `Dump` is the stored form of a patient: no id, with bmi and verdict.
  - `MergeUpdate` dumps the set fields of an update, and its loop
    `AssignEach` copies them over the stored ones.
  - `Updated` is the reference definition of a successful update.
- `Sorting` (`sorting.dfy`) parses the `sort_by` and `order` parameters and
  holds a stable sort of records by one key, in either direction.
- `Store` (`store.dfy`) is the table as a class. It keeps the ids in
  insertion order, because Python dictionaries do and the sort receives the
  records in that order. Its methods are `View`, `Sort`, `Create`, `Update`
  and `Delete`. Two client methods show what a caller can rely on.

Numbers are exact: ages are `int`, and heights, weights and bmi are `real`.
The bmi is the exact quotient rounded half-to-even to two decimals, which is
what Python's `round(x, 2)` does to the value it is given.

Request bodies before validation are `Candidate` values. A field is `None`
when the body leaves it out or sends null; a required field rejects both.
`PatientUpdate` fields are `Unset`, `Set(None)` (an explicit null) or
`Set(Some(v))`, because `model_dump(exclude_unset=True)` keeps explicit
nulls. An explicit null passes the `PatientUpdate` model. It is then copied
over the stored field, and the `Patient(**...)` rebuild in the update
handler rejects it. The model reports this as `Failed(Invalid(...))` naming
those fields, and the table is left unchanged. `Records.RevalidateMerged`
proves that this rebuild fails exactly on the nulled fields. When there are
none, it proves the rebuild stores `Updated(old, u)`.

The sort is an insertion sort, not Python's Timsort. `Sorting.SortCharacterised`
proves that only one ordering is sorted and keeps ties in their input
order, so the two sorts give the same result.

Where the code and its design description differ, the model follows the
code:

- The client supplies the id, and create rejects an id that is already
  present. A deleted id can be created again.
- `name` and `city` have no constraint beyond being strings. They may be
  empty.
- For a non-positive height, `bmi` returns 0 rather than failing. Validation
  rules out such a height for every record in the table, so this branch is
  only reachable through the function itself.
- Each verdict threshold (18.5, 25, 30) belongs to the band above it,
  because the code compares with strict `<`.

## Model

| member | source | states |
|---|---|---|
| Metrics.RoundedCount | main.py:28 | the count of hundredths is within half a hundredth of the value, and on an exact tie it is even |
| Metrics.RoundHundredths | main.py:28 | the result is a whole number of hundredths within 0.005 of the input |
| Metrics.RoundMonotone | main.py:28 | rounding preserves order: x <= y implies round(x) <= round(y) |
| Metrics.RoundFixesHundredths | main.py:28 | a value already with two decimals is unchanged by rounding |
| Metrics.Bmi | main.py:25-30 | 0 when height <= 0; otherwise a two-decimal value within 0.005 of weight / height² (no division by zero) |
| Metrics.BmiNonNegative | main.py:27-29 | for positive height and weight the bmi is never negative |
| Metrics.Classify | main.py:34-43 | Underweight iff bmi < 18.5, Normal iff 18.5 <= bmi < 25, Overweight iff 25 <= bmi < 30, Obesity iff bmi >= 30; total |
| Metrics.ClassifyMonotone | main.py:36-43 | a larger bmi never gives a lower band |
| Metrics.ClassifyBoundaries | main.py:36-43 | 18.5, 25 and 30 each land in the upper band |
| Metrics.LabelInjective | main.py:37-43 | the four verdict strings are distinct |
| Metrics.VerdictMonotone | main.py:25-43 | the verdict of the rounded bmi is monotone in the unrounded weight / height² |
| Metrics.NonPositiveHeightIsUnderweight | main.py:27-37 | the 0 returned for height <= 0 is classified Underweight |
| Metrics.BmiExamples | main.py:25-43 | 1.75 m, 70 kg gives 22.86, Normal; 1.60 m, 90 kg gives 35.16, Obesity |
| Records.ViolatedAmong | main.py:14-21 | lists exactly the given fields that violate their constraint, as a subsequence of the given fields (their order kept), with no field twice when the given fields have none twice |
| Records.Validate | main.py:14-21 | accepts iff every field is present and meets its constraint (0 < age < 120, gender in {male, female, others}, height > 0, weight > 0); the accepted patient carries the body's values; a rejection lists exactly the violated fields |
| Records.ValidateOrdered | main.py:14-21 | a rejection names each violated field once, in declaration order |
| Records.ValidateRoundTrip | main.py:14-21 | every valid patient's own body is accepted and gives that patient back |
| Records.Dump | main.py:127 | the stored form keeps every field of the patient but the id (name, city, age, gender, height, weight), and its bmi and verdict are those of the patient's height and weight |
| Records.DumpValid | main.py:18-30 | the stored form of a valid patient satisfies the record invariant and has a non-negative bmi |
| Records.UpdateViolations | main.py:45-51 | lists exactly the fields whose given value breaks its constraint; unset and null fields pass |
| Records.Items | main.py:142 | the dump of an update has an item for each field the body sets, carrying the value given (an explicit null included), and every item it has is such an item; unset fields have none |
| Records.Assign | main.py:149 | assigning one item is the merge of an update that sets only that field: that field takes the item's value, every other field and the id are kept |
| Records.AssignEach | main.py:148-149 | the loop leaves the fields as assigning every item in order does |
| Records.AssignItemsIsMerge | main.py:142-149 | assigning the set items one after another gives the reference merge |
| Records.MergeUpdate | main.py:142-149 | after the dump and the loop, each field the update sets has the given value and every other field, the id included, is unchanged |
| Records.RevalidateMerged | main.py:157-164 | rebuilding the merged patient fails exactly on the fields set to null; otherwise it succeeds with the path id and stores the reference update |
| Records.UpdatedValid | main.py:157-167 | a successful update yields a valid record whose bmi and verdict match its merged height and weight |
| Records.UpdateKeepsMetrics | main.py:157-164 | an update that sets neither height nor weight leaves bmi and verdict as they were |
| Sorting.ParseSortKey | main.py:100-102 | accepts exactly height, weight and bmi |
| Sorting.ParseDirection | main.py:103-104 | accepts exactly asc and desc |
| Sorting.KeyOfIsLookup | main.py:112 | for every accepted `sort_by`, the key `KeyOf` sorts on is the record's entry `x.get(sort_by, 0)`, and the default is never what is compared, because a stored record always has that entry |
| Sorting.Insert | main.py:112 | inserting adds exactly one occurrence of the record |
| Sorting.InsertSorted | main.py:112 | inserting into a sorted sequence keeps it sorted |
| Sorting.SortRecords | main.py:112 | the result is a permutation of the input, non-decreasing for asc and non-increasing for desc |
| Sorting.SortStable | main.py:112 | for every key value, records with that key keep their input order, in both directions |
| Sorting.SortedTiesUnique | main.py:112 | two sorted sequences with the same ties for every key are equal |
| Sorting.SortCharacterised | main.py:112 | any sorted ordering that keeps ties in input order equals the result of the sort |
| Store.Without | main.py:179 | removes exactly the given id and keeps the ids distinct; an absent id leaves the list as it was |
| Store.WithoutAt | main.py:179 | removing the id at position i gives the ids before it followed by the ids after it, so the other ids keep their order |
| Store.ValuesOf | main.py:108 | lists the record of each id, in id order |
| Store.PatientStore.View | main.py:87-96 | returns the stored record of a present id, and not-found otherwise, without changing anything |
| Store.PatientStore.Sort | main.py:98-113 | rejects an unknown key first, then an unknown order; otherwise returns a permutation of the stored records, ordered by the key in the given direction, with ties in insertion order |
| Store.PatientStore.Create | main.py:115-130 | an invalid body fails with the violated fields and a duplicate id fails as already existing, both with the table unchanged; otherwise appends exactly that id with the dumped record (no id, derived bmi and verdict) and keeps the invariant |
| Store.PatientStore.Update | main.py:132-170 | an invalid body fails with its violations and an unknown id with not-found; fields nulled in the body fail re-validation; in all three cases the table is unchanged; otherwise only that id's record is replaced by the reference update, in place, and the invariant holds |
| Store.PatientStore.Delete | main.py:172-181 | an unknown id fails with not-found and leaves the table unchanged; otherwise exactly that id is removed, the others keep their records and order, and a later view finds nothing |

## Left out

- Reading and writing `patients.json` (main.py:56-68) is left out. This
  includes the fallback to an empty table when the file is missing or
  corrupt. The table is in-memory state of `Store.PatientStore`, and
  storage errors do not arise.
- HTTP routing, status codes, response bodies and message texts are left
  out, as are the `/about` endpoint and the static-file mount. Each
  operation keeps only its success or error outcome. The `/view` endpoint
  returns the table as it is and has no logic of its own.
- Binary floating point is left out. The model does not have IEEE division,
  or `round` acting on the binary approximation of the quotient. Infinite
  or NaN inputs are also out of scope. The model rounds the exact real
  quotient.
- Pydantic type coercion is left out, such as the string "30" becoming the
  int 30. So are the dump machinery and non-string values in string fields.
  A body is taken to hold values of the declared types, or null, or nothing.
- A record that lacks the sort key is left out. `Sorting.Get` models the
  default of 0, and `Sorting.KeyOfIsLookup` shows that a stored record
  always has the key. Every record in the table is built by create or
  update. A record without the key could only come from a hand-edited
  file, and file loading is not modelled.
- The default `asc` for a missing `order` parameter is HTTP-level and is
  left out. The model takes the parameter string as given.
- When re-validation fails, the update handler raises a server error
  rather than a validation response. The model reports it as an
  `Invalid` failure with the table unchanged.
- Store.PatientStore.Update: when a body nulls fields, the contract names
  the failing fields as a set rather than as the exact ordered list the
  validator produces.
