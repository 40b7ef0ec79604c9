/**
 * The recursive flattener: one parsed JSON object becomes one flat document
 * that maps sanitized field names to a stored value or a list of values.
 * Nested objects contribute their fields under the underscore-joined raw key
 * path, arrays of scalars become list fields, arrays holding an object or an
 * array are dropped, and null values are dropped.
 */
module Flattener {
  import opened Wrappers
  import opened FieldNames
  import opened JsonValues

  datatype FieldValue = Single(value: Scalar) | Multi(values: seq<Scalar>)

  /** A flat document; a later write to a field name replaces an earlier one. */
  type FlatDoc = map<string, FieldValue>

  /** A single field write: field name and value. */
  type Write = (string, FieldValue)

  /** The raw path of a key under a prefix; the empty prefix is the top level. */
  function JoinPath(prefix: string, key: string): string {
    if prefix == [] then key else prefix + "_" + key
  }

  /** Some item of the array is an object or an array. */
  predicate HasContainer(items: seq<Json>) {
    exists k :: 0 <= k < |items| && !items[k].IsScalar()
  }

  /** The converted items of an array of scalars, in order; null items are absent. */
  function ScalarList(items: seq<Json>): (r: seq<Scalar>)
    ensures |r| <= |items|
  {
    if items == [] then []
    else
      var head := Convert(items[0]);
      (if head.Some? then [head.value] else []) + ScalarList(items[1..])
  }

  // ---------------------------------------------------------------------
  // The flattener as documented: members are visited in order and each one
  // sets its fields into the document being built.
  // ---------------------------------------------------------------------

  /** Member i of an object whose raw path prefix is `prefix` sets its fields into `doc`. */
  function FlattenMember(ms: seq<(string, Json)>, i: nat, prefix: string, doc: FlatDoc): (r: FlatDoc)
    requires i < |ms|
    ensures doc.Keys <= r.Keys
    decreases JObject(ms), |ms| - i, 0
  {
    var path := JoinPath(prefix, ms[i].0);
    match ms[i].1
    case JNull => doc
    case JObject(inner) => FlattenFrom(inner, 0, path, doc)
    case JArray(items) =>
      if HasContainer(items) then doc else doc[Sanitize(path) := Multi(ScalarList(items))]
    case _ => doc[Sanitize(path) := Single(Convert(ms[i].1).value)]
  }

  /** Members i.. of an object set their fields into `doc`, in member order. */
  function FlattenFrom(ms: seq<(string, Json)>, i: nat, prefix: string, doc: FlatDoc): (r: FlatDoc)
    requires i <= |ms|
    ensures doc.Keys <= r.Keys
    decreases JObject(ms), |ms| - i, 1
  {
    if i == |ms| then doc
    else FlattenFrom(ms, i + 1, prefix, FlattenMember(ms, i, prefix, doc))
  }

  // ---------------------------------------------------------------------
  // Reference definition: the list of field writes an object makes, and the
  // document that results from performing them in order.
  // ---------------------------------------------------------------------

  function MemberWrites(ms: seq<(string, Json)>, i: nat, prefix: string): seq<Write>
    requires i < |ms|
    decreases JObject(ms), |ms| - i, 0
  {
    var path := JoinPath(prefix, ms[i].0);
    match ms[i].1
    case JNull => []
    case JObject(inner) => Writes(inner, 0, path)
    case JArray(items) =>
      if HasContainer(items) then [] else [(Sanitize(path), Multi(ScalarList(items)))]
    case _ => [(Sanitize(path), Single(Convert(ms[i].1).value))]
  }

  function Writes(ms: seq<(string, Json)>, i: nat, prefix: string): seq<Write>
    requires i <= |ms|
    decreases JObject(ms), |ms| - i, 1
  {
    if i == |ms| then [] else MemberWrites(ms, i, prefix) + Writes(ms, i + 1, prefix)
  }

  /** The field names a list of writes touches. */
  function Names(ws: seq<Write>): set<string> {
    set k | 0 <= k < |ws| :: ws[k].0
  }

  /** Performs the writes in order. */
  function Apply(doc: FlatDoc, ws: seq<Write>): FlatDoc
    decreases |ws|
  {
    if ws == [] then doc else Apply(doc[ws[0].0 := ws[0].1], ws[1..])
  }

  lemma {:induction false} ApplyConcat(doc: FlatDoc, a: seq<Write>, b: seq<Write>)
    ensures Apply(doc, a + b) == Apply(Apply(doc, a), b)
    decreases |a|
  {
    if a != [] {
      assert (a + b)[0] == a[0];
      assert (a + b)[1..] == a[1..] + b;
      var d := doc[a[0].0 := a[0].1];
      ApplyConcat(d, a[1..], b);
      assert Apply(doc, a + b) == Apply(d, a[1..] + b);
      assert Apply(doc, a) == Apply(d, a[1..]);
    } else {
      assert a + b == b;
    }
  }

  /** A field no write touches keeps its presence and value. */
  lemma {:induction false} ApplyUntouched(doc: FlatDoc, ws: seq<Write>, n: string)
    requires n !in Names(ws)
    ensures n in Apply(doc, ws) <==> n in doc
    ensures n in doc ==> Apply(doc, ws)[n] == doc[n]
    decreases |ws|
  {
    if ws != [] {
      assert n != ws[0].0 by { assert ws[0].0 in Names(ws); }
      assert Names(ws[1..]) <= Names(ws) by {
        forall x | x in Names(ws[1..]) ensures x in Names(ws) {
          var k :| 0 <= k < |ws[1..]| && ws[1..][k].0 == x;
          assert ws[k + 1].0 == x;
        }
      }
      ApplyUntouched(doc[ws[0].0 := ws[0].1], ws[1..], n);
    }
  }

  /** Every touched field is present afterwards, and nothing else is added. */
  lemma {:induction false} ApplyKeys(doc: FlatDoc, ws: seq<Write>)
    ensures Apply(doc, ws).Keys == doc.Keys + Names(ws)
    decreases |ws|
  {
    if ws != [] {
      ApplyKeys(doc[ws[0].0 := ws[0].1], ws[1..]);
      assert Names(ws) == {ws[0].0} + Names(ws[1..]) by {
        forall x | x in Names(ws) ensures x in {ws[0].0} + Names(ws[1..]) {
          var k :| 0 <= k < |ws| && ws[k].0 == x;
          if k > 0 { assert ws[1..][k - 1].0 == x; }
        }
        forall x | x in Names(ws[1..]) ensures x in Names(ws) {
          var k :| 0 <= k < |ws[1..]| && ws[1..][k].0 == x;
          assert ws[k + 1].0 == x;
        }
      }
    } else {
      assert Names(ws) == {};
    }
  }

  /** Last write wins: the value of a field is the last value written to it. */
  lemma LastWriteWins(doc: FlatDoc, before: seq<Write>, n: string, v: FieldValue, after: seq<Write>)
    requires n !in Names(after)
    ensures n in Apply(doc, before + [(n, v)] + after)
    ensures Apply(doc, before + [(n, v)] + after)[n] == v
  {
    ApplyConcat(doc, before + [(n, v)], after);
    ApplyConcat(doc, before, [(n, v)]);
    var mid := Apply(doc, before + [(n, v)]);
    assert Apply(Apply(doc, before), [(n, v)]) == Apply(doc, before)[n := v];
    ApplyUntouched(mid, after, n);
  }

  /** Building the document member by member performs exactly the reference writes. */
  lemma {:induction false} FlattenMemberIsApply(ms: seq<(string, Json)>, i: nat, prefix: string, doc: FlatDoc)
    requires i < |ms|
    ensures FlattenMember(ms, i, prefix, doc) == Apply(doc, MemberWrites(ms, i, prefix))
    decreases JObject(ms), |ms| - i, 0
  {
    match ms[i].1
    case JObject(inner) => FlattenFromIsApply(inner, 0, JoinPath(prefix, ms[i].0), doc);
    case _ =>
  }

  lemma {:induction false} FlattenFromIsApply(ms: seq<(string, Json)>, i: nat, prefix: string, doc: FlatDoc)
    requires i <= |ms|
    ensures FlattenFrom(ms, i, prefix, doc) == Apply(doc, Writes(ms, i, prefix))
    decreases JObject(ms), |ms| - i, 1
  {
    if i < |ms| {
      FlattenMemberIsApply(ms, i, prefix, doc);
      FlattenFromIsApply(ms, i + 1, prefix, FlattenMember(ms, i, prefix, doc));
      ApplyConcat(doc, MemberWrites(ms, i, prefix), Writes(ms, i + 1, prefix));
    }
  }

  /** Every field name an object writes satisfies the sanitization grammar. */
  lemma {:induction false} MemberWritesSanitized(ms: seq<(string, Json)>, i: nat, prefix: string)
    requires i < |ms|
    ensures forall n :: n in Names(MemberWrites(ms, i, prefix)) ==> IsSanitized(n)
    decreases JObject(ms), |ms| - i, 0
  {
    var path := JoinPath(prefix, ms[i].0);
    SanitizeIsSanitized(path);
    match ms[i].1
    case JObject(inner) => WritesSanitized(inner, 0, path);
    case _ =>
  }

  lemma {:induction false} WritesSanitized(ms: seq<(string, Json)>, i: nat, prefix: string)
    requires i <= |ms|
    ensures forall n :: n in Names(Writes(ms, i, prefix)) ==> IsSanitized(n)
    decreases JObject(ms), |ms| - i, 1
  {
    if i < |ms| {
      MemberWritesSanitized(ms, i, prefix);
      WritesSanitized(ms, i + 1, prefix);
      NamesConcat(MemberWrites(ms, i, prefix), Writes(ms, i + 1, prefix));
    } else {
      assert Names(Writes(ms, i, prefix)) == {};
    }
  }

  lemma NamesSingle(n: string, v: FieldValue)
    ensures Names([(n, v)]) == {n}
  {
    assert [(n, v)][0].0 == n;
  }

  lemma NamesConcat(a: seq<Write>, b: seq<Write>)
    ensures Names(a + b) == Names(a) + Names(b)
  {
    var ab := a + b;
    forall x | x in Names(ab) ensures x in Names(a) + Names(b) {
      var k :| 0 <= k < |ab| && ab[k].0 == x;
      if k < |a| { assert a[k].0 == x; } else { assert b[k - |a|].0 == x; }
    }
    forall x | x in Names(a) + Names(b) ensures x in Names(ab) {
      if x in Names(a) {
        var k :| 0 <= k < |a| && a[k].0 == x;
        assert ab[k].0 == x;
      } else {
        var k :| 0 <= k < |b| && b[k].0 == x;
        assert ab[|a| + k].0 == x;
      }
    }
  }
  /** The writes of members i.. are those of members i..j-1 followed by those of members j.. . */
  lemma {:induction false} WritesSplit(ms: seq<(string, Json)>, i: nat, j: nat, prefix: string) returns (before: seq<Write>)
    requires i <= j <= |ms|
    ensures Writes(ms, i, prefix) == before + Writes(ms, j, prefix)
    decreases j - i
  {
    if i == j {
      before := [];
    } else {
      var rest := WritesSplit(ms, i + 1, j, prefix);
      before := MemberWrites(ms, i, prefix) + rest;
    }
  }

  /** The writes of an object are those before member j, then member j's, then those after it. */
  lemma MemberSplit(ms: seq<(string, Json)>, j: nat, prefix: string) returns (before: seq<Write>)
    requires j < |ms|
    ensures Writes(ms, 0, prefix) == before + MemberWrites(ms, j, prefix) + Writes(ms, j + 1, prefix)
  {
    before := WritesSplit(ms, 0, j, prefix);
    assert Writes(ms, j, prefix) == MemberWrites(ms, j, prefix) + Writes(ms, j + 1, prefix);
  }

  /** A field name is written by an object exactly when one of its members writes it. */
  lemma WritesNames(ms: seq<(string, Json)>, i: nat, prefix: string, n: string)
    requires i <= |ms|
    ensures n in Names(Writes(ms, i, prefix)) <==>
            exists k :: i <= k < |ms| && n in Names(MemberWrites(ms, k, prefix))
  {
    if n in Names(Writes(ms, i, prefix)) {
      var k := WriterOf(ms, i, prefix, n);
    }
    if exists k :: i <= k < |ms| && n in Names(MemberWrites(ms, k, prefix)) {
      var k :| i <= k < |ms| && n in Names(MemberWrites(ms, k, prefix));
      WrittenBy(ms, i, k, prefix, n);
    }
  }

  /** A name the members i.. write is written by one of them. */
  lemma {:induction false} WriterOf(ms: seq<(string, Json)>, i: nat, prefix: string, n: string) returns (k: nat)
    requires i <= |ms| && n in Names(Writes(ms, i, prefix))
    ensures i <= k < |ms| && n in Names(MemberWrites(ms, k, prefix))
    decreases |ms| - i
  {
    if i == |ms| {
      assert false;
    } else {
      NamesConcat(MemberWrites(ms, i, prefix), Writes(ms, i + 1, prefix));
      if n in Names(MemberWrites(ms, i, prefix)) {
        k := i;
      } else {
        k := WriterOf(ms, i + 1, prefix, n);
      }
    }
  }

  /** A name member k writes is among the names the members i.. write, for i up to k. */
  lemma {:induction false} WrittenBy(ms: seq<(string, Json)>, i: nat, k: nat, prefix: string, n: string)
    requires i <= k < |ms| && n in Names(MemberWrites(ms, k, prefix))
    ensures n in Names(Writes(ms, i, prefix))
    decreases k - i
  {
    NamesConcat(MemberWrites(ms, i, prefix), Writes(ms, i + 1, prefix));
    if k > i {
      WrittenBy(ms, i + 1, k, prefix, n);
    }
  }

  // ---------------------------------------------------------------------
  // Records and documents.
  // ---------------------------------------------------------------------

  /**
   * The flat document of one parsed record: its fields are exactly the names
   * the record's members write. A record that is not an object has no fields.
   */
  function FlattenRecord(record: Json): (r: FlatDoc)
    ensures !record.JObject? ==> r == map[]
  {
    if record.JObject? then FlattenFrom(record.members, 0, "", map[]) else map[]
  }

  /** A record's fields are exactly the names its members write. */
  lemma RecordFields(ms: seq<(string, Json)>)
    ensures FlattenRecord(JObject(ms)).Keys == Names(Writes(ms, 0, ""))
  {
    FlattenFromIsApply(ms, 0, "", map[]);
    ApplyKeys(map[], Writes(ms, 0, ""));
  }

  /** Every field name of a flat document satisfies the sanitization grammar. */
  lemma RecordFieldsSanitized(record: Json)
    ensures forall n :: n in FlattenRecord(record) ==> IsSanitized(n)
  {
    if record.JObject? {
      RecordFields(record.members);
      WritesSanitized(record.members, 0, "");
    }
  }

  /** A key with an upper-case letter is never a field: the value of `inStock` is stored under `instock`. */
  lemma MixedCaseKeyAbsent(record: Json)
    ensures "inStock" !in FlattenRecord(record)
  {
    RecordFieldsSanitized(record);
    assert !IsSanitized("inStock") by { assert !IsFieldChar("inStock"[2]); }
  }

  /** A member that writes one field decides its value unless a later member writes it again. */
  lemma MemberDecides(ms: seq<(string, Json)>, j: nat, n: string, v: FieldValue)
    requires j < |ms| && MemberWrites(ms, j, "") == [(n, v)]
    requires n !in Names(Writes(ms, j + 1, ""))
    ensures n in FlattenRecord(JObject(ms)) && FlattenRecord(JObject(ms))[n] == v
  {
    var before := WritesSplit(ms, 0, j, "");
    assert Writes(ms, 0, "") == before + [(n, v)] + Writes(ms, j + 1, "");
    LastWriteWins(map[], before, n, v, Writes(ms, j + 1, ""));
    FlattenFromIsApply(ms, 0, "", map[]);
  }

  /**
   * A top-level scalar member is stored, converted, under its sanitized key,
   * unless a later member writes the same field name (last write wins).
   */
  lemma ScalarMember(ms: seq<(string, Json)>, j: nat)
    requires j < |ms| && ms[j].1.IsScalar() && !ms[j].1.JNull?
    requires Sanitize(ms[j].0) !in Names(Writes(ms, j + 1, ""))
    ensures Sanitize(ms[j].0) in FlattenRecord(JObject(ms))
    ensures FlattenRecord(JObject(ms))[Sanitize(ms[j].0)] == Single(Convert(ms[j].1).value)
  {
    MemberDecides(ms, j, Sanitize(ms[j].0), Single(Convert(ms[j].1).value));
  }

  /** A null member writes nothing: its field is absent unless another member writes it. */
  lemma NullMember(ms: seq<(string, Json)>, j: nat)
    requires j < |ms| && ms[j].1.JNull?
    requires forall k :: 0 <= k < |ms| && k != j ==> Sanitize(ms[j].0) !in Names(MemberWrites(ms, k, ""))
    ensures Sanitize(ms[j].0) !in FlattenRecord(JObject(ms))
  {
    RecordFields(ms);
    WritesNames(ms, 0, "", Sanitize(ms[j].0));
  }

  /**
   * An array of scalars becomes one list field under its sanitized key that
   * keeps every non-null item, converted, in order (duplicates included).
   */
  lemma ScalarArrayMember(ms: seq<(string, Json)>, j: nat)
    requires j < |ms| && ms[j].1.JArray? && !HasContainer(ms[j].1.items)
    requires Sanitize(ms[j].0) !in Names(Writes(ms, j + 1, ""))
    ensures Sanitize(ms[j].0) in FlattenRecord(JObject(ms))
    ensures FlattenRecord(JObject(ms))[Sanitize(ms[j].0)] == Multi(ScalarList(ms[j].1.items))
  {
    MemberDecides(ms, j, Sanitize(ms[j].0), Multi(ScalarList(ms[j].1.items)));
  }

  /** An array holding an object or an array emits no field. */
  lemma ContainerArrayMember(ms: seq<(string, Json)>, j: nat)
    requires j < |ms| && ms[j].1.JArray? && HasContainer(ms[j].1.items)
    requires forall k :: 0 <= k < |ms| && k != j ==> Sanitize(ms[j].0) !in Names(MemberWrites(ms, k, ""))
    ensures Sanitize(ms[j].0) !in FlattenRecord(JObject(ms))
  {
    RecordFields(ms);
    WritesNames(ms, 0, "", Sanitize(ms[j].0));
  }

  /** The field a non-object value stores under its own name, if any. */
  function LeafField(v: Json): Option<FieldValue> {
    match v
    case JNull => None
    case JObject(_) => None
    case JArray(items) => if HasContainer(items) then None else Some(Multi(ScalarList(items)))
    case _ => Some(Single(Convert(v).value))
  }

  /** No member is an object, and the keys are distinct and already clean. */
  predicate CleanRecord(ms: seq<(string, Json)>) {
    && (forall k :: 0 <= k < |ms| ==> !ms[k].1.JObject? && IsSanitized(ms[k].0))
    && (forall k, l :: 0 <= k < l < |ms| ==> ms[k].0 != ms[l].0)
  }

  /**
   * A record without nested objects, under distinct clean keys, flattens to
   * exactly the members that store a field: each non-null scalar under its
   * key, converted; each array of scalars as a list. Null members and arrays
   * holding an object or an array leave no field.
   */
  lemma CleanRecordFields(ms: seq<(string, Json)>)
    requires CleanRecord(ms)
    ensures FlattenRecord(JObject(ms)).Keys == set k | 0 <= k < |ms| && LeafField(ms[k].1).Some? :: ms[k].0
    ensures forall k :: 0 <= k < |ms| && LeafField(ms[k].1).Some? ==>
      ms[k].0 in FlattenRecord(JObject(ms)) && FlattenRecord(JObject(ms))[ms[k].0] == LeafField(ms[k].1).value
  {
    CleanMemberWrites(ms);
    forall k | 0 <= k < |ms| && LeafField(ms[k].1).Some?
      ensures ms[k].0 in FlattenRecord(JObject(ms)) && FlattenRecord(JObject(ms))[ms[k].0] == LeafField(ms[k].1).value
    {
      CleanLaterWrites(ms, k);
      MemberDecides(ms, k, ms[k].0, LeafField(ms[k].1).value);
    }
    RecordFields(ms);
    CleanRecordNames(ms);
  }

  /** In a clean record each member writes its own field under its own key, or nothing. */
  lemma CleanMemberWrites(ms: seq<(string, Json)>)
    requires CleanRecord(ms)
    ensures forall k :: 0 <= k < |ms| ==>
      MemberWrites(ms, k, "") == if LeafField(ms[k].1).Some? then [(ms[k].0, LeafField(ms[k].1).value)] else []
  {
    forall k | 0 <= k < |ms|
      ensures MemberWrites(ms, k, "") == if LeafField(ms[k].1).Some? then [(ms[k].0, LeafField(ms[k].1).value)] else []
    {
      SanitizeFixpoint(ms[k].0);
    }
  }

  /** In a clean record no member after member k writes its key. */
  lemma CleanLaterWrites(ms: seq<(string, Json)>, k: nat)
    requires CleanRecord(ms) && k < |ms|
    ensures ms[k].0 !in Names(Writes(ms, k + 1, ""))
  {
    CleanMemberWrites(ms);
    WritesNames(ms, k + 1, "", ms[k].0);
    forall l | k + 1 <= l < |ms| && LeafField(ms[l].1).Some?
      ensures ms[k].0 !in Names(MemberWrites(ms, l, ""))
    {
      NamesSingle(ms[l].0, LeafField(ms[l].1).value);
    }
  }

  /** The names a clean record writes are the keys of its members that store a field. */
  lemma CleanRecordNames(ms: seq<(string, Json)>)
    requires CleanRecord(ms)
    ensures Names(Writes(ms, 0, "")) == set k | 0 <= k < |ms| && LeafField(ms[k].1).Some? :: ms[k].0
  {
    forall n | n in Names(Writes(ms, 0, ""))
      ensures n in set k | 0 <= k < |ms| && LeafField(ms[k].1).Some? :: ms[k].0
    {
      var l := CleanNameWritten(ms, n);
    }
    forall l | 0 <= l < |ms| && LeafField(ms[l].1).Some?
      ensures ms[l].0 in Names(Writes(ms, 0, ""))
    {
      CleanNameStored(ms, l);
    }
  }

  /** A name a clean record writes is the key of a member that stores a field. */
  lemma CleanNameWritten(ms: seq<(string, Json)>, n: string) returns (l: nat)
    requires CleanRecord(ms) && n in Names(Writes(ms, 0, ""))
    ensures l < |ms| && LeafField(ms[l].1).Some? && ms[l].0 == n
  {
    WritesNames(ms, 0, "", n);
    l :| 0 <= l < |ms| && n in Names(MemberWrites(ms, l, ""));
    CleanMemberWrites(ms);
    if LeafField(ms[l].1).Some? {
      NamesSingle(ms[l].0, LeafField(ms[l].1).value);
    }
  }

  /** The key of a member of a clean record that stores a field is written. */
  lemma CleanNameStored(ms: seq<(string, Json)>, l: nat)
    requires CleanRecord(ms) && l < |ms| && LeafField(ms[l].1).Some?
    ensures ms[l].0 in Names(Writes(ms, 0, ""))
  {
    var w := (ms[l].0, LeafField(ms[l].1).value);
    SanitizeFixpoint(ms[l].0);
    var before := MemberSplit(ms, l, "");
    assert MemberWrites(ms, l, "") == [w];
    NamesSingle(w.0, w.1);
    NamesConcat(before, [w]);
    NamesConcat(before + [w], Writes(ms, l + 1, ""));
  }

  /** The clean-record lemma, stated as an equation with an expected document. */
  lemma CleanRecordDocument(ms: seq<(string, Json)>, want: FlatDoc)
    requires CleanRecord(ms)
    requires want.Keys == set k | 0 <= k < |ms| && LeafField(ms[k].1).Some? :: ms[k].0
    requires forall k :: 0 <= k < |ms| && LeafField(ms[k].1).Some? ==> ms[k].0 in want && want[ms[k].0] == LeafField(ms[k].1).value
    ensures FlattenRecord(JObject(ms)) == want
  {
    CleanRecordFields(ms);
    var doc := FlattenRecord(JObject(ms));
    forall n | n in want ensures doc[n] == want[n] {
      var k :| 0 <= k < |ms| && LeafField(ms[k].1).Some? && ms[k].0 == n;
    }
  }

  /** The list of an array without nulls has one converted element per item, in order. */
  lemma {:induction false} ScalarListKeepsAll(items: seq<Json>)
    requires forall k :: 0 <= k < |items| ==> items[k].IsScalar() && !items[k].JNull?
    ensures |ScalarList(items)| == |items|
    ensures forall k :: 0 <= k < |items| ==> ToJson(ScalarList(items)[k]) == items[k]
  {
    if items != [] {
      ScalarListKeepsAll(items[1..]);
      var r := ScalarList(items);
      assert r == [Convert(items[0]).value] + ScalarList(items[1..]);
      forall k | 0 <= k < |items| ensures ToJson(r[k]) == items[k] {
        if k > 0 { assert items[1..][k - 1] == items[k]; }
      }
    }
  }

  /**
   * A field inside a nested object is stored under the underscore-joined raw
   * path of the two keys, sanitized, unless a later write reuses that name.
   */
  lemma NestedMember(ms: seq<(string, Json)>, j: nat, key: string, inner: seq<(string, Json)>, k: nat)
    requires j < |ms| && ms[j] == (key, JObject(inner))
    requires k < |inner| && inner[k].1.IsScalar() && !inner[k].1.JNull?
    requires Sanitize(JoinPath(key, inner[k].0)) !in Names(Writes(inner, k + 1, key))
    requires Sanitize(JoinPath(key, inner[k].0)) !in Names(Writes(ms, j + 1, ""))
    ensures Sanitize(JoinPath(key, inner[k].0)) in FlattenRecord(JObject(ms))
    ensures FlattenRecord(JObject(ms))[Sanitize(JoinPath(key, inner[k].0))] == Single(Convert(inner[k].1).value)
  {
    PathLast(key, inner, k);
    PathCons("", ms, j, [k]);
    NamesConcat(Writes(inner, k + 1, key), Writes(ms, j + 1, ""));
    PathField(ms, [j] + [k]);
  }

  /** Two clean keys join to a clean name, which the sanitizer leaves alone. */
  lemma CleanJoin(a: string, b: string)
    requires IsSanitized(a) && IsSanitized(b) && a != [] && b != []
    ensures Sanitize(JoinPath(a, b)) == a + "_" + b
  {
    SanitizedJoin(a, b);
    SanitizeFixpoint(a + "_" + b);
  }

  /**
   * An object member holding an object whose first two members are scalars
   * yields both nested fields, named by the clean parent key joined to each
   * child key, unless a later write reuses one of the names.
   */
  lemma NestedPair(ms: seq<(string, Json)>, j: nat, key: string, a: string, va: Json, b: string, vb: Json,
                   rest: seq<(string, Json)>)
    requires j < |ms| && ms[j] == (key, JObject([(a, va), (b, vb)] + rest))
    requires IsSanitized(key) && IsSanitized(a) && IsSanitized(b) && key != [] && a != [] && b != [] && a != b
    requires va.IsScalar() && !va.JNull? && vb.IsScalar() && !vb.JNull?
    requires key + "_" + a !in Names(Writes(ms, j + 1, "")) && key + "_" + b !in Names(Writes(ms, j + 1, ""))
    requires key + "_" + a !in Names(Writes([(a, va), (b, vb)] + rest, 2, key))
    requires key + "_" + b !in Names(Writes([(a, va), (b, vb)] + rest, 2, key))
    ensures key + "_" + a in FlattenRecord(JObject(ms))
    ensures FlattenRecord(JObject(ms))[key + "_" + a] == Single(Convert(va).value)
    ensures key + "_" + b in FlattenRecord(JObject(ms))
    ensures FlattenRecord(JObject(ms))[key + "_" + b] == Single(Convert(vb).value)
  {
    var inner := [(a, va), (b, vb)] + rest;
    assert inner[0] == (a, va) && inner[1] == (b, vb);
    NestedPairFirst(ms, j, key, inner, a, va, b, vb);
    CleanJoin(key, b);
    NestedMember(ms, j, key, inner, 1);
  }

  /** The first of the pair is not overwritten by the second, whose name differs. */
  lemma NestedPairFirst(ms: seq<(string, Json)>, j: nat, key: string, inner: seq<(string, Json)>,
                        a: string, va: Json, b: string, vb: Json)
    requires j < |ms| && ms[j] == (key, JObject(inner)) && |inner| >= 2
    requires inner[0] == (a, va) && inner[1] == (b, vb)
    requires IsSanitized(key) && IsSanitized(a) && IsSanitized(b) && key != [] && a != [] && b != [] && a != b
    requires va.IsScalar() && !va.JNull? && vb.IsScalar() && !vb.JNull?
    requires key + "_" + a !in Names(Writes(ms, j + 1, ""))
    requires key + "_" + a !in Names(Writes(inner, 2, key))
    ensures key + "_" + a in FlattenRecord(JObject(ms))
    ensures FlattenRecord(JObject(ms))[key + "_" + a] == Single(Convert(va).value)
  {
    CleanJoin(key, a);
    SecondNotFirst(inner, key, a, b, vb);
    NestedMember(ms, j, key, inner, 0);
  }

  /** The second member, under another key, does not write the first member's name. */
  lemma SecondNotFirst(inner: seq<(string, Json)>, key: string, a: string, b: string, vb: Json)
    requires |inner| >= 2 && inner[1] == (b, vb) && vb.IsScalar() && !vb.JNull?
    requires IsSanitized(key) && IsSanitized(b) && key != [] && b != [] && a != b
    requires key + "_" + a !in Names(Writes(inner, 2, key))
    ensures key + "_" + a !in Names(Writes(inner, 1, key))
  {
    JoinedDiffer(key, a, b);
    var w := SecondWrite(inner, key, b, vb);
    NamesSingle(w.0, w.1);
    NamesConcat([w], Writes(inner, 2, key));
  }

  lemma JoinedDiffer(key: string, a: string, b: string)
    requires a != b
    ensures key + "_" + a != key + "_" + b
  {
    assert (key + "_" + a)[|key| + 1..] == a && (key + "_" + b)[|key| + 1..] == b;
  }

  /** The second member of an object, a scalar under a clean key, writes its joined name first. */
  lemma SecondWrite(inner: seq<(string, Json)>, key: string, b: string, vb: Json) returns (w: Write)
    requires |inner| >= 2 && inner[1] == (b, vb) && vb.IsScalar() && !vb.JNull?
    requires IsSanitized(key) && IsSanitized(b) && key != [] && b != []
    ensures w == (key + "_" + b, Single(Convert(vb).value))
    ensures Writes(inner, 1, key) == [w] + Writes(inner, 2, key)
  {
    CleanJoin(key, b);
    w := (key + "_" + b, Single(Convert(vb).value));
    assert MemberWrites(inner, 1, key) == [w];
  }

  /** An object that nests `keys` one inside another, with `leaf` innermost. */
  function Nest(keys: seq<string>, leaf: Json): Json
    requires keys != []
    decreases |keys|
  {
    JObject([(keys[0], if |keys| == 1 then leaf else Nest(keys[1..], leaf))])
  }

  /** The raw path the flattener builds for `keys` under `prefix`. */
  function PathOf(prefix: string, keys: seq<string>): string
    decreases |keys|
  {
    if keys == [] then prefix else PathOf(JoinPath(prefix, keys[0]), keys[1..])
  }

  /** At any depth, the innermost value of a nest is stored under the sanitized joined path. */
  lemma {:induction false} NestedLeaf(keys: seq<string>, leaf: Json, prefix: string, doc: FlatDoc)
    requires keys != [] && leaf.IsScalar() && !leaf.JNull?
    ensures FlattenFrom(Nest(keys, leaf).members, 0, prefix, doc)
         == doc[Sanitize(PathOf(prefix, keys)) := Single(Convert(leaf).value)]
    decreases |keys|
  {
    var ms := Nest(keys, leaf).members;
    assert FlattenFrom(ms, 0, prefix, doc) == FlattenMember(ms, 0, prefix, doc);
    if |keys| > 1 {
      NestedLeaf(keys[1..], leaf, JoinPath(prefix, keys[0]), doc);
    }
  }

  /** Joining clean keys under a clean prefix gives a clean name. */
  lemma {:induction false} PathOfSanitized(prefix: string, keys: seq<string>)
    requires IsSanitized(prefix)
    requires forall k :: 0 <= k < |keys| ==> IsSanitized(keys[k]) && keys[k] != []
    ensures IsSanitized(PathOf(prefix, keys))
    decreases |keys|
  {
    if keys != [] {
      if prefix != [] {
        SanitizedJoin(prefix, keys[0]);
      }
      PathOfSanitized(JoinPath(prefix, keys[0]), keys[1..]);
    }
  }

  /** A nest of clean keys flattens to its one leaf, named by the keys joined with `_`. */
  lemma DeepNesting(keys: seq<string>, leaf: Json)
    requires keys != [] && leaf.IsScalar() && !leaf.JNull?
    requires forall k :: 0 <= k < |keys| ==> IsSanitized(keys[k]) && keys[k] != []
    ensures FlattenRecord(Nest(keys, leaf)) == map[PathOf("", keys) := Single(Convert(leaf).value)]
  {
    NestedLeaf(keys, leaf, "", map[]);
    PathOfSanitized("", keys);
    SanitizeFixpoint(PathOf("", keys));
  }

  // ---------------------------------------------------------------------
  // Paths through nested objects: a leaf reached by member indices, with
  // sibling members at every level.
  // ---------------------------------------------------------------------

  /** `path` picks one member per level, and every member it passes through before the last is an object. */
  predicate IsPath(ms: seq<(string, Json)>, path: seq<nat>)
    decreases |path|
  {
    && |path| > 0 && path[0] < |ms|
    && (|path| > 1 ==> ms[path[0]].1.JObject? && IsPath(ms[path[0]].1.members, path[1..]))
  }

  /** The value at the end of a path. */
  function LeafAt(ms: seq<(string, Json)>, path: seq<nat>): Json
    requires IsPath(ms, path)
    decreases |path|
  {
    if |path| == 1 then ms[path[0]].1 else LeafAt(ms[path[0]].1.members, path[1..])
  }

  /** The raw key path of the member a path ends at: the keys along it joined with `_`. */
  function RawPath(prefix: string, ms: seq<(string, Json)>, path: seq<nat>): string
    requires IsPath(ms, path)
    decreases |path|
  {
    var p := JoinPath(prefix, ms[path[0]].0);
    if |path| == 1 then p else RawPath(p, ms[path[0]].1.members, path[1..])
  }

  /** A path of one step ends at the member it picks, named by that member's key. */
  lemma PathLast(prefix: string, ms: seq<(string, Json)>, j: nat)
    requires j < |ms|
    ensures IsPath(ms, [j]) && LeafAt(ms, [j]) == ms[j].1 && RawPath(prefix, ms, [j]) == JoinPath(prefix, ms[j].0)
    ensures LaterWrites(prefix, ms, [j]) == Writes(ms, j + 1, prefix)
  {
  }

  /** A path that first enters member j goes on as a path through that member's object. */
  lemma PathCons(prefix: string, ms: seq<(string, Json)>, j: nat, path: seq<nat>)
    requires j < |ms| && ms[j].1.JObject? && IsPath(ms[j].1.members, path)
    ensures IsPath(ms, [j] + path)
    ensures LeafAt(ms, [j] + path) == LeafAt(ms[j].1.members, path)
    ensures RawPath(prefix, ms, [j] + path) == RawPath(JoinPath(prefix, ms[j].0), ms[j].1.members, path)
    ensures LaterWrites(prefix, ms, [j] + path)
         == LaterWrites(JoinPath(prefix, ms[j].0), ms[j].1.members, path) + Writes(ms, j + 1, prefix)
  {
    assert ([j] + path)[1..] == path;
  }

  /** The writes that follow the leaf's own: those of the later siblings at every level, innermost first. */
  function LaterWrites(prefix: string, ms: seq<(string, Json)>, path: seq<nat>): seq<Write>
    requires IsPath(ms, path)
    decreases |path|
  {
    var j := path[0];
    var siblings := Writes(ms, j + 1, prefix);
    if |path| == 1 then siblings
    else LaterWrites(JoinPath(prefix, ms[j].0), ms[j].1.members, path[1..]) + siblings
  }

  /** An object's writes are some earlier writes, the write of the leaf at the end of the path, and the later writes. */
  lemma {:induction false} PathWrites(prefix: string, ms: seq<(string, Json)>, path: seq<nat>) returns (before: seq<Write>)
    requires IsPath(ms, path) && LeafAt(ms, path).IsScalar() && !LeafAt(ms, path).JNull?
    ensures Writes(ms, 0, prefix)
         == before + [(Sanitize(RawPath(prefix, ms, path)), Single(Convert(LeafAt(ms, path)).value))]
          + LaterWrites(prefix, ms, path)
    decreases |path|
  {
    var j := path[0];
    var p := JoinPath(prefix, ms[j].0);
    var outer := MemberSplit(ms, j, prefix);
    var siblings := Writes(ms, j + 1, prefix);
    var w := (Sanitize(RawPath(prefix, ms, path)), Single(Convert(LeafAt(ms, path)).value));
    if |path| == 1 {
      assert MemberWrites(ms, j, prefix) == [w];
      before := outer;
    } else {
      var inner := ms[j].1.members;
      var nested := PathWrites(p, inner, path[1..]);
      var later := LaterWrites(p, inner, path[1..]);
      assert MemberWrites(ms, j, prefix) == Writes(inner, 0, p) == nested + [w] + later;
      before := outer + nested;
      Regroup(outer, nested, w, later, siblings);
    }
  }

  lemma Regroup(a: seq<Write>, b: seq<Write>, w: Write, c: seq<Write>, d: seq<Write>)
    ensures a + (b + [w] + c) + d == (a + b) + [w] + (c + d)
  {
  }

  /**
   * At any depth, the non-null scalar at the end of a path is stored under the
   * sanitized raw path, unless a later write reuses that name.
   */
  lemma PathField(ms: seq<(string, Json)>, path: seq<nat>)
    requires IsPath(ms, path) && LeafAt(ms, path).IsScalar() && !LeafAt(ms, path).JNull?
    requires Sanitize(RawPath("", ms, path)) !in Names(LaterWrites("", ms, path))
    ensures Sanitize(RawPath("", ms, path)) in FlattenRecord(JObject(ms))
    ensures FlattenRecord(JObject(ms))[Sanitize(RawPath("", ms, path))] == Single(Convert(LeafAt(ms, path)).value)
  {
    var n := Sanitize(RawPath("", ms, path));
    var before := PathWrites("", ms, path);
    LastWriteWins(map[], before, n, Single(Convert(LeafAt(ms, path)).value), LaterWrites("", ms, path));
    FlattenFromIsApply(ms, 0, "", map[]);
  }

  /** A key of lower-case letters and digits only. */
  predicate IsWordKey(k: string) {
    k != [] && forall i :: 0 <= i < |k| ==> IsWordChar(k[i])
  }

  /** At every depth, every key is a word key and sibling keys differ. */
  predicate WordKeyed(ms: seq<(string, Json)>)
    decreases JObject(ms)
  {
    forall k :: 0 <= k < |ms| ==>
      && IsWordKey(ms[k].0)
      && (forall l :: k < l < |ms| ==> ms[l].0 != ms[k].0)
      && (ms[k].1.JObject? ==> WordKeyed(ms[k].1.members))
  }

  /** `n` is the name `q` or a name below it, that is `q` followed by `_` and more. */
  predicate Below(n: string, q: string) {
    n == q || (|q| < |n| && n[..|q| + 1] == q + "_")
  }

  /** A word key joined under a clean prefix gives a clean, non-empty name. */
  lemma WordJoin(prefix: string, key: string)
    requires IsSanitized(prefix) && IsWordKey(key)
    ensures IsSanitized(JoinPath(prefix, key)) && JoinPath(prefix, key) != []
  {
    assert IsSanitized(key);
    if prefix != [] {
      SanitizedJoin(prefix, key);
    }
  }

  /** A name below `p_key` is strictly below `p`. */
  lemma BelowExtends(n: string, p: string, key: string)
    requires Below(n, p + "_" + key)
    ensures |p| < |n| && n[..|p| + 1] == p + "_"
  {
    var q := p + "_" + key;
    assert n[..|q|] == q;
    assert q[..|p| + 1] == p + "_";
    assert n[..|p| + 1] == n[..|q|][..|p| + 1];
  }

  /** Every name a member of a word-keyed object writes is below the member's own path. */
  lemma {:induction false} MemberBelow(ms: seq<(string, Json)>, i: nat, prefix: string)
    requires i < |ms| && WordKeyed(ms) && IsSanitized(prefix)
    ensures forall n :: n in Names(MemberWrites(ms, i, prefix)) ==> Below(n, JoinPath(prefix, ms[i].0))
    decreases JObject(ms), |ms| - i, 0
  {
    var p := JoinPath(prefix, ms[i].0);
    WordJoin(prefix, ms[i].0);
    SanitizeFixpoint(p);
    match ms[i].1
    case JObject(inner) => WritesBelow(inner, 0, p);
    case _ =>
  }

  /** Every name member i of a word-keyed object writes under a non-empty prefix is strictly below it. */
  lemma {:induction false} MemberStrictlyBelow(ms: seq<(string, Json)>, i: nat, prefix: string)
    requires i < |ms| && WordKeyed(ms) && IsSanitized(prefix) && prefix != []
    ensures forall n :: n in Names(MemberWrites(ms, i, prefix)) ==> |prefix| < |n| && n[..|prefix| + 1] == prefix + "_"
    decreases JObject(ms), |ms| - i, 1
  {
    MemberBelow(ms, i, prefix);
    forall n | n in Names(MemberWrites(ms, i, prefix))
      ensures |prefix| < |n| && n[..|prefix| + 1] == prefix + "_"
    {
      BelowExtends(n, prefix, ms[i].0);
    }
  }

  /** Every name the members i.. of a word-keyed object write under a non-empty prefix is strictly below it. */
  lemma {:induction false} WritesBelow(ms: seq<(string, Json)>, i: nat, prefix: string)
    requires i <= |ms| && WordKeyed(ms) && IsSanitized(prefix) && prefix != []
    ensures forall n :: n in Names(Writes(ms, i, prefix)) ==> |prefix| < |n| && n[..|prefix| + 1] == prefix + "_"
    decreases JObject(ms), |ms| - i, 2
  {
    if i < |ms| {
      MemberStrictlyBelow(ms, i, prefix);
      WritesBelow(ms, i + 1, prefix);
      NamesConcat(MemberWrites(ms, i, prefix), Writes(ms, i + 1, prefix));
    } else {
      assert Names(Writes(ms, i, prefix)) == {};
    }
  }

  /** `n`'s first characters after `q` spell `x`, and then `n` ends or goes on with `_`. */
  lemma BelowSpells(n: string, q: string, x: string)
    requires Below(n, q + x)
    ensures |q| + |x| <= |n| && n[..|q| + |x|] == q + x
    ensures |q| + |x| < |n| ==> n[|q| + |x|] == '_'
  {
    if n != q + x {
      assert n[..|q| + |x|] == n[..|q| + |x| + 1][..|q| + |x|];
    }
  }

  /** A name below two word keys under one prefix pins the shorter key to the longer one. */
  lemma SameKey(n: string, q: string, a: string, b: string)
    requires IsWordKey(a) && IsWordKey(b) && |a| <= |b|
    ensures Below(n, q + a) && Below(n, q + b) ==> a == b
  {
    if Below(n, q + a) && Below(n, q + b) {
      BelowSpells(n, q, a);
      BelowSpells(n, q, b);
      assert forall i :: 0 <= i < |a| ==> a[i] == (q + a)[|q| + i] == n[|q| + i];
      assert forall i :: 0 <= i < |b| ==> b[i] == (q + b)[|q| + i] == n[|q| + i];
    }
  }

  /** Names below two different sibling word keys are different. */
  lemma SiblingsApart(n: string, prefix: string, a: string, b: string)
    requires IsWordKey(a) && IsWordKey(b) && a != b
    ensures !(Below(n, JoinPath(prefix, a)) && Below(n, JoinPath(prefix, b)))
  {
    var q := if prefix == [] then [] else prefix + "_";
    assert JoinPath(prefix, a) == q + a && JoinPath(prefix, b) == q + b;
    if |a| <= |b| {
      SameKey(n, q, a, b);
    } else {
      SameKey(n, q, b, a);
    }
  }

  /** A name below member j's path is written by none of the later members. */
  lemma LaterSiblings(ms: seq<(string, Json)>, j: nat, prefix: string, n: string)
    requires j < |ms| && WordKeyed(ms) && IsSanitized(prefix) && Below(n, JoinPath(prefix, ms[j].0))
    ensures n !in Names(Writes(ms, j + 1, prefix))
  {
    WritesNames(ms, j + 1, prefix, n);
    forall l | j + 1 <= l < |ms|
      ensures n !in Names(MemberWrites(ms, l, prefix))
    {
      MemberBelow(ms, l, prefix);
      SiblingsApart(n, prefix, ms[j].0, ms[l].0);
    }
  }

  /** In a word-keyed object, a path's raw name is clean, below its first member, and never written again. */
  lemma {:induction false} PathNameUnique(prefix: string, ms: seq<(string, Json)>, path: seq<nat>)
    requires IsPath(ms, path) && WordKeyed(ms) && IsSanitized(prefix)
    ensures IsSanitized(RawPath(prefix, ms, path))
    ensures Below(RawPath(prefix, ms, path), JoinPath(prefix, ms[path[0]].0))
    ensures RawPath(prefix, ms, path) !in Names(LaterWrites(prefix, ms, path))
    decreases |path|
  {
    var j := path[0];
    var p := JoinPath(prefix, ms[j].0);
    var n := RawPath(prefix, ms, path);
    WordJoin(prefix, ms[j].0);
    if |path| > 1 {
      var inner := ms[j].1.members;
      assert WordKeyed(inner);
      PathNameUnique(p, inner, path[1..]);
      BelowExtends(n, p, inner[path[1]].0);
      NamesConcat(LaterWrites(p, inner, path[1..]), Writes(ms, j + 1, prefix));
    }
    LaterSiblings(ms, j, prefix, n);
  }

  /**
   * In a record whose keys are lower-case words at every depth, with sibling
   * keys distinct, every non-null scalar leaf is stored under the keys of its
   * path joined with `_`, whatever its depth and whatever its siblings.
   */
  lemma WordKeyedField(ms: seq<(string, Json)>, path: seq<nat>)
    requires IsPath(ms, path) && WordKeyed(ms) && LeafAt(ms, path).IsScalar() && !LeafAt(ms, path).JNull?
    ensures RawPath("", ms, path) in FlattenRecord(JObject(ms))
    ensures FlattenRecord(JObject(ms))[RawPath("", ms, path)] == Single(Convert(LeafAt(ms, path)).value)
  {
    PathNameUnique("", ms, path);
    SanitizeFixpoint(RawPath("", ms, path));
    PathField(ms, path);
  }

  /** The documents of a parsed input: one per item of a top-level array, in order; none otherwise. */
  function CreateDocuments(root: Json): (docs: seq<FlatDoc>)
    ensures root.JArray? ==> |docs| == |root.items|
    ensures root.JArray? ==> forall k :: 0 <= k < |docs| ==> docs[k] == FlattenRecord(root.items[k])
    ensures !root.JArray? ==> docs == []
  {
    if root.JArray? then seq(|root.items|, k requires 0 <= k < |root.items| => FlattenRecord(root.items[k]))
    else []
  }

  /**
   * N records that each carry an `id` string, not overwritten by a later
   * member, give N documents in input order, each keeping its `id` unchanged.
   * `at[k]` is the position of the `id` member in record k.
   */
  lemma DocumentsKeepIds(items: seq<Json>, at: seq<nat>, ids: seq<string>)
    requires |at| == |items| && |ids| == |items|
    requires forall k :: 0 <= k < |items| ==>
      items[k].JObject? && at[k] < |items[k].members| &&
      items[k].members[at[k]] == ("id", JString(ids[k])) &&
      "id" !in Names(Writes(items[k].members, at[k] + 1, ""))
    ensures |CreateDocuments(JArray(items))| == |items|
    ensures forall k :: 0 <= k < |items| ==>
      "id" in CreateDocuments(JArray(items))[k] &&
      CreateDocuments(JArray(items))[k]["id"] == Single(Text(ids[k]))
  {
    var docs := CreateDocuments(JArray(items));
    assert Sanitize("id") == "id" by { SanitizeFixpoint("id"); }
    forall k | 0 <= k < |items|
      ensures "id" in docs[k] && docs[k]["id"] == Single(Text(ids[k]))
    {
      ScalarMember(items[k].members, at[k]);
    }
  }

  /** Parsing the text, then flattening; a parse failure is passed on unchanged. */
  function CreateSchemalessDocuments(text: string, parse: string -> Result<Json, string>): (r: Result<seq<FlatDoc>, string>)
    ensures parse(text).Failure? ==> r == Failure(parse(text).error)
    ensures parse(text).Success? ==> r == Success(CreateDocuments(parse(text).value))
  {
    var root :- parse(text);
    Success(CreateDocuments(root))
  }
}
