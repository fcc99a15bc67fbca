/**
 * Duplicate detection (`get_grouping_key`, main.py:250-280, and the grouping
 * pass of `process_documents`, main.py:316-327).
 *
 * The extracted records of one type are grouped by an identity key built
 * from cleaned fields. Groups are visited in the order their keys were
 * first seen; each group is sorted by file name (a stable sort), its first
 * record is marked "original" and the others "duplicate".
 */
module Grouping {
  import opened Documents
  import FieldValue
  import Extraction

  // ---------------------------------------------------------------------
  // The grouping key

  /** The identity fields of each type, in key order (main.py:253-272). */
  function KeyFields(t: DocType): seq<Extraction.Field> {
    match t
    case Paystub =>
      [Extraction.EmployeeName, Extraction.EmployerName, Extraction.PayPeriodStartDate,
       Extraction.PayPeriodEndDate, Extraction.YearToDateEarnings]
    case W2 => [Extraction.EmployeeName, Extraction.EmployerName, Extraction.Year]
    case Form1120 => [Extraction.Name, Extraction.Year, Extraction.BeginningTaxYear, Extraction.EndingTaxYear]
  }

  /** A grouping key: the tuple of cleaned identity values. */
  type Key = seq<string>

  /** The record keys of the identity fields. */
  function KeyNames(t: DocType): seq<string> {
    Extraction.Keys(KeyFields(t))
  }

  /** Every one of `names` is a field of `doc`. */
  predicate HasAll(doc: Record, names: seq<string>) {
    forall k | k in names :: k in doc
  }

  /**
   * The key over the given field names: their cleaned values when all are
   * present; a missing field raises, which the caller turns into all "N/A".
   */
  function KeyOf(doc: Record, names: seq<string>): (r: Key)
    ensures |r| == |names|
  {
    if HasAll(doc, names) then
      seq(|names|, i requires 0 <= i < |names| => FieldValue.GetFieldValue(doc[names[i]]))
    else
      seq(|names|, i => FieldValue.NA)
  }

  /** `get_grouping_key` (main.py:250-280). */
  function GroupingKey(doc: Record, t: DocType): Key {
    KeyOf(doc, KeyNames(t))
  }

  /** The key function the pass groups the records of type `t` by. */
  function KeyFn(t: DocType): Record -> Key {
    doc => GroupingKey(doc, t)
  }

  /** A paystub key has five components, a W-2 key three and a Form 1120 key four. */
  lemma GroupingKeyLength(doc: Record, t: DocType)
    ensures |GroupingKey(doc, t)| == (match t case Paystub => 5 case W2 => 3 case Form1120 => 4)
  {
    assert |KeyNames(t)| == |KeyFields(t)|;
  }

  /**
   * Each component is the cleaned value of its field when all fields are
   * present, and "N/A" throughout otherwise.
   */
  lemma KeyOfComponents(doc: Record, names: seq<string>, i: nat)
    requires i < |names|
    ensures HasAll(doc, names) ==> KeyOf(doc, names)[i] == FieldValue.GetFieldValue(doc[names[i]])
    ensures !HasAll(doc, names) ==> KeyOf(doc, names)[i] == FieldValue.NA
  {
  }

  /** Cleaning a component again changes nothing. */
  lemma KeyOfCleaned(doc: Record, names: seq<string>, i: nat)
    requires i < |names|
    ensures FieldValue.GetFieldValue(KeyOf(doc, names)[i]) == KeyOf(doc, names)[i]
  {
    KeyOfComponents(doc, names, i);
    var c := KeyOf(doc, names)[i];
    if HasAll(doc, names) {
      var w := doc[names[i]];
      FieldValue.GetFieldValueIdempotent(w);
      assert c == FieldValue.GetFieldValue(w);
    } else {
      FieldValue.NAIsClean();
      assert c == FieldValue.NA;
    }
  }

  /** No identity field is `status`. */
  lemma KeyNamesNotStatus(t: DocType)
    ensures "status" !in KeyNames(t)
  {
    var fs := KeyFields(t);
    forall i | 0 <= i < |fs| ensures KeyNames(t)[i] != "status" {
      Extraction.KeyInjective(fs[i], fs[i]);
    }
  }

  /** Setting a field that is not an identity field never changes a key. */
  lemma StampKeepsKey(doc: Record, names: seq<string>, status: string)
    requires "status" !in names
    ensures KeyOf(Stamp(doc, status), names) == KeyOf(doc, names)
  {
    var s := Stamp(doc, status);
    assert HasAll(s, names) <==> HasAll(doc, names);
    if HasAll(doc, names) {
      forall i | 0 <= i < |names| ensures KeyOf(s, names)[i] == KeyOf(doc, names)[i] {
        assert s[names[i]] == doc[names[i]];
      }
    }
  }

  /** Marking a record never changes its grouping key. */
  lemma StatusIsNoKeyField(doc: Record, t: DocType, status: string)
    ensures GroupingKey(Stamp(doc, status), t) == GroupingKey(doc, t)
  {
    KeyNamesNotStatus(t);
    StampKeepsKey(doc, KeyNames(t), status);
  }

  // ---------------------------------------------------------------------
  // Marking

  /** The copy of `doc` without its `status`, with the given one instead. */
  function Stamp(doc: Record, status: string): (r: Record)
    ensures "status" in r && r["status"] == status
    ensures forall k | k != "status" :: (k in r <==> k in doc) && (k in doc ==> r[k] == doc[k])
  {
    (doc - {"status"})["status" := status]
  }

  /** A sorted group, its first record marked "original" and the others "duplicate". */
  function Marked(group: seq<Record>): seq<Record> {
    seq(|group|, i requires 0 <= i < |group| => Stamp(group[i], if i == 0 then "original" else "duplicate"))
  }

  /** A record with its `status` removed: what marking leaves unchanged. */
  function Unmarked(doc: Record): Record {
    doc - {"status"}
  }

  /** `Unmarked` on every record of a sequence. */
  function Strip(docs: seq<Record>): (r: seq<Record>)
    ensures |r| == |docs|
  {
    seq(|docs|, i requires 0 <= i < |docs| => Unmarked(docs[i]))
  }

  /**
   * Marking a group sets exactly one "original", at its head, marks the
   * rest "duplicate" and changes nothing else.
   */
  lemma MarkedShape(group: seq<Record>)
    ensures |Marked(group)| == |group|
    ensures forall i | 0 <= i < |group| ::
      Marked(group)[i]["status"] == (if i == 0 then "original" else "duplicate")
    ensures Strip(Marked(group)) == Strip(group)
  {
    var m := Marked(group);
    forall i | 0 <= i < |group| ensures Unmarked(m[i]) == Unmarked(group[i]) {
      assert m[i] == Stamp(group[i], if i == 0 then "original" else "duplicate");
    }
  }

  // ---------------------------------------------------------------------
  // File-name order

  /** The `filename` field, by which a group is sorted. */
  function FileNameOf(doc: Record): string {
    if "filename" in doc then doc["filename"] else ""
  }

  /** Python's string order: lexicographic by code point, a prefix before its extensions. */
  predicate LexLe(a: string, b: string) {
    a == [] || (b != [] && (a[0] < b[0] || (a[0] == b[0] && LexLe(a[1..], b[1..]))))
  }

  lemma {:induction false} LexLeReflexive(a: string)
    ensures LexLe(a, a)
  {
    if a != [] {
      LexLeReflexive(a[1..]);
    }
  }

  lemma {:induction false} LexLeTotal(a: string, b: string)
    ensures LexLe(a, b) || LexLe(b, a)
  {
    if a != [] && b != [] && a[0] == b[0] {
      LexLeTotal(a[1..], b[1..]);
    }
  }

  lemma {:induction false} LexLeTransitive(a: string, b: string, c: string)
    requires LexLe(a, b) && LexLe(b, c)
    ensures LexLe(a, c)
  {
    if a != [] && b != [] && c != [] && a[0] == b[0] && b[0] == c[0] {
      LexLeTransitive(a[1..], b[1..], c[1..]);
    }
  }

  lemma {:induction false} LexLeAntisymmetric(a: string, b: string)
    requires LexLe(a, b) && LexLe(b, a)
    ensures a == b
  {
    if a != [] && b != [] {
      LexLeAntisymmetric(a[1..], b[1..]);
      assert a == [a[0]] + a[1..] && b == [b[0]] + b[1..];
    }
  }

  /** Records in file-name order. */
  predicate Sorted(docs: seq<Record>) {
    forall i, j | 0 <= i < j < |docs| :: LexLe(FileNameOf(docs[i]), FileNameOf(docs[j]))
  }

  /** Puts `doc` before the first record whose file name is not smaller. */
  function Insert(doc: Record, docs: seq<Record>): (r: seq<Record>)
    ensures |r| == |docs| + 1
  {
    if docs == [] || LexLe(FileNameOf(doc), FileNameOf(docs[0])) then [doc] + docs
    else [docs[0]] + Insert(doc, docs[1..])
  }

  /**
   * `group_docs.sort(key=lambda x: x["filename"])`: a stable sort by file
   * name, written as an insertion sort.
   */
  function SortByFileName(docs: seq<Record>): (r: seq<Record>)
    ensures |r| == |docs|
  {
    if docs == [] then [] else Insert(docs[0], SortByFileName(docs[1..]))
  }

  lemma {:induction false} InsertPermutes(doc: Record, docs: seq<Record>)
    ensures multiset(Insert(doc, docs)) == multiset(docs) + multiset{doc}
  {
    if docs != [] && !LexLe(FileNameOf(doc), FileNameOf(docs[0])) {
      InsertPermutes(doc, docs[1..]);
      assert docs == [docs[0]] + docs[1..];
    }
  }

  /** A record no later than every record of a sorted sequence can lead it. */
  lemma SortedCons(doc: Record, docs: seq<Record>)
    requires Sorted(docs)
    requires forall j | 0 <= j < |docs| :: LexLe(FileNameOf(doc), FileNameOf(docs[j]))
    ensures Sorted([doc] + docs)
  {
    var r := [doc] + docs;
    forall i, j | 0 <= i < j < |r| ensures LexLe(FileNameOf(r[i]), FileNameOf(r[j])) {
      assert r[j] == docs[j - 1];
      if i > 0 {
        assert r[i] == docs[i - 1];
      }
    }
  }

  /** A lower bound of a record and of a sequence bounds the insertion. */
  lemma {:induction false} InsertLowerBound(doc: Record, docs: seq<Record>, b: string)
    requires LexLe(b, FileNameOf(doc))
    requires forall j | 0 <= j < |docs| :: LexLe(b, FileNameOf(docs[j]))
    ensures forall j | 0 <= j < |Insert(doc, docs)| :: LexLe(b, FileNameOf(Insert(doc, docs)[j]))
  {
    var r := Insert(doc, docs);
    if docs == [] || LexLe(FileNameOf(doc), FileNameOf(docs[0])) {
      forall j | 0 <= j < |r| ensures LexLe(b, FileNameOf(r[j])) {
        if j > 0 {
          assert r[j] == docs[j - 1];
        }
      }
    } else {
      var tail := docs[1..];
      forall j | 0 <= j < |tail| ensures LexLe(b, FileNameOf(tail[j])) {
        assert tail[j] == docs[j + 1];
      }
      InsertLowerBound(doc, tail, b);
      forall j | 0 <= j < |r| ensures LexLe(b, FileNameOf(r[j])) {
        if j > 0 {
          assert r[j] == Insert(doc, tail)[j - 1];
        }
      }
    }
  }

  lemma {:induction false} InsertSorted(doc: Record, docs: seq<Record>)
    requires Sorted(docs)
    ensures Sorted(Insert(doc, docs))
  {
    if docs == [] {
      assert Insert(doc, docs) == [doc];
    } else if LexLe(FileNameOf(doc), FileNameOf(docs[0])) {
      forall j | 0 <= j < |docs| ensures LexLe(FileNameOf(doc), FileNameOf(docs[j])) {
        if j > 0 {
          LexLeTransitive(FileNameOf(doc), FileNameOf(docs[0]), FileNameOf(docs[j]));
        }
      }
      SortedCons(doc, docs);
    } else {
      var tail := docs[1..];
      assert Sorted(tail) by {
        forall i, j | 0 <= i < j < |tail| ensures LexLe(FileNameOf(tail[i]), FileNameOf(tail[j])) {
          assert tail[i] == docs[i + 1] && tail[j] == docs[j + 1];
        }
      }
      InsertSorted(doc, tail);
      LexLeTotal(FileNameOf(doc), FileNameOf(docs[0]));
      forall j | 0 <= j < |tail| ensures LexLe(FileNameOf(docs[0]), FileNameOf(tail[j])) {
        assert tail[j] == docs[j + 1];
      }
      InsertLowerBound(doc, tail, FileNameOf(docs[0]));
      SortedCons(docs[0], Insert(doc, tail));
    }
  }

  /** The sort orders by file name and keeps every record. */
  lemma {:induction false} SortByFileNameCorrect(docs: seq<Record>)
    ensures Sorted(SortByFileName(docs))
    ensures multiset(SortByFileName(docs)) == multiset(docs)
  {
    if docs != [] {
      SortByFileNameCorrect(docs[1..]);
      InsertSorted(docs[0], SortByFileName(docs[1..]));
      InsertPermutes(docs[0], SortByFileName(docs[1..]));
      assert docs == [docs[0]] + docs[1..];
    }
  }

  /** `docs[i]` is the first record of `docs` with the smallest file name. */
  predicate IsFirstSmallest(docs: seq<Record>, i: nat) {
    && i < |docs|
    && (forall j | 0 <= j < |docs| :: LexLe(FileNameOf(docs[i]), FileNameOf(docs[j])))
    && (forall j | 0 <= j < i :: !LexLe(FileNameOf(docs[j]), FileNameOf(docs[i])))
  }

  /**
   * Stability decides the head of a sorted group: it is the first record,
   * in input order, whose file name is the smallest.
   */
  lemma {:induction false} SortHead(docs: seq<Record>)
    requires docs != []
    ensures |SortByFileName(docs)| == |docs|
    ensures exists i: nat :: IsFirstSmallest(docs, i) && SortByFileName(docs)[0] == docs[i]
  {
    var x, tail := docs[0], docs[1..];
    var rest := SortByFileName(tail);
    assert SortByFileName(docs) == Insert(x, rest);
    if tail == [] {
      LexLeReflexive(FileNameOf(x));
      assert IsFirstSmallest(docs, 0);
    } else {
      SortHead(tail);
      var i: nat :| IsFirstSmallest(tail, i) && rest[0] == tail[i];
      if LexLe(FileNameOf(x), FileNameOf(rest[0])) {
        forall j | 0 <= j < |docs| ensures LexLe(FileNameOf(x), FileNameOf(docs[j])) {
          if j == 0 {
            LexLeReflexive(FileNameOf(x));
          } else {
            assert docs[j] == tail[j - 1];
            LexLeTransitive(FileNameOf(x), FileNameOf(tail[i]), FileNameOf(docs[j]));
          }
        }
        assert IsFirstSmallest(docs, 0);
      } else {
        assert Insert(x, rest)[0] == docs[i + 1];
        LexLeTotal(FileNameOf(x), FileNameOf(rest[0]));
        forall j | 0 <= j < |docs| ensures LexLe(FileNameOf(docs[i + 1]), FileNameOf(docs[j])) {
          if j > 0 {
            assert docs[j] == tail[j - 1];
          }
        }
        forall j | 0 <= j < i + 1 ensures !LexLe(FileNameOf(docs[j]), FileNameOf(docs[i + 1])) {
          if j > 0 {
            assert docs[j] == tail[j - 1];
          }
        }
        assert IsFirstSmallest(docs, i + 1);
      }
    }
  }

  // ---------------------------------------------------------------------
  // Groups

  /** The distinct keys of `docs`, in the order each was first seen. */
  function Order(docs: seq<Record>, keyOf: Record -> Key): seq<Key>
    decreases |docs|
  {
    if docs == [] then []
    else
      var prev := Order(docs[..|docs| - 1], keyOf);
      var key := keyOf(docs[|docs| - 1]);
      if key in prev then prev else prev + [key]
  }

  /** The records of `docs` whose key is `key`, in input order. */
  function Members(docs: seq<Record>, keyOf: Record -> Key, key: Key): seq<Record>
    decreases |docs|
  {
    if docs == [] then []
    else
      var prev := Members(docs[..|docs| - 1], keyOf, key);
      if keyOf(docs[|docs| - 1]) == key then prev + [docs[|docs| - 1]] else prev
  }

  /** One group of the output: its members sorted by file name, then marked. */
  function Block(docs: seq<Record>, keyOf: Record -> Key, key: Key): seq<Record> {
    Marked(SortByFileName(Members(docs, keyOf, key)))
  }

  /** The blocks of the given keys, in that order. */
  function BlocksOf(docs: seq<Record>, keyOf: Record -> Key, keys: seq<Key>): seq<seq<Record>> {
    seq(|keys|, j requires 0 <= j < |keys| => Block(docs, keyOf, keys[j]))
  }

  /** The blocks laid end to end. */
  function Concat(blocks: seq<seq<Record>>): seq<Record>
    decreases |blocks|
  {
    if blocks == [] then [] else Concat(blocks[..|blocks| - 1]) + blocks[|blocks| - 1]
  }

  /** The output of the grouping pass for records grouped by `keyOf`. */
  function Grouped(docs: seq<Record>, keyOf: Record -> Key): seq<Record> {
    Concat(BlocksOf(docs, keyOf, Order(docs, keyOf)))
  }

  // ---------------------------------------------------------------------
  // Properties of the groups

  /** A key is listed exactly when some record has it. */
  lemma {:induction false} OrderMembership(docs: seq<Record>, keyOf: Record -> Key, key: Key)
    ensures key in Order(docs, keyOf) <==> exists i | 0 <= i < |docs| :: keyOf(docs[i]) == key
    decreases |docs|
  {
    if docs != [] {
      var init := docs[..|docs| - 1];
      OrderMembership(init, keyOf, key);
      if exists i | 0 <= i < |init| :: keyOf(init[i]) == key {
        var i :| 0 <= i < |init| && keyOf(init[i]) == key;
        assert docs[i] == init[i];
      }
      if exists i | 0 <= i < |docs| :: keyOf(docs[i]) == key {
        var i :| 0 <= i < |docs| && keyOf(docs[i]) == key;
        if i < |init| {
          assert init[i] == docs[i];
        }
      }
    }
  }

  /** No key is listed twice. */
  lemma {:induction false} OrderDistinct(docs: seq<Record>, keyOf: Record -> Key)
    ensures Extraction.Distinct(Order(docs, keyOf))
    decreases |docs|
  {
    if docs != [] {
      OrderDistinct(docs[..|docs| - 1], keyOf);
    }
  }

  /**
   * Keys are listed in first-seen order: the keys of a prefix of the input
   * lead the keys of the whole input.
   */
  lemma {:induction false} OrderGrowsByAppending(docs: seq<Record>, keyOf: Record -> Key, n: nat)
    requires n <= |docs|
    ensures Order(docs[..n], keyOf) <= Order(docs, keyOf)
    decreases |docs| - n
  {
    if n < |docs| {
      OrderGrowsByAppending(docs, keyOf, n + 1);
      assert docs[..n + 1][..n] == docs[..n];
    } else {
      assert docs[..n] == docs;
    }
  }

  /** A group holds exactly the records with its key. */
  lemma {:induction false} MembersMembership(docs: seq<Record>, keyOf: Record -> Key, key: Key)
    ensures forall d :: d in Members(docs, keyOf, key) <==> d in docs && keyOf(d) == key
    decreases |docs|
  {
    if docs != [] {
      var init := docs[..|docs| - 1];
      MembersMembership(init, keyOf, key);
      assert docs == init + [docs[|docs| - 1]];
    }
  }

  /** A key nobody has has no members. */
  lemma {:induction false} MembersOfUnseenKey(docs: seq<Record>, keyOf: Record -> Key, key: Key)
    requires key !in Order(docs, keyOf)
    ensures Members(docs, keyOf, key) == []
    decreases |docs|
  {
    if docs != [] {
      MembersOfUnseenKey(docs[..|docs| - 1], keyOf, key);
    }
  }

  /** A listed key has members. */
  lemma MembersOfSeenKey(docs: seq<Record>, keyOf: Record -> Key, key: Key)
    requires key in Order(docs, keyOf)
    ensures Members(docs, keyOf, key) != []
  {
    OrderMembership(docs, keyOf, key);
    MembersMembership(docs, keyOf, key);
    var i :| 0 <= i < |docs| && keyOf(docs[i]) == key;
    assert docs[i] in Members(docs, keyOf, key);
  }

  // ---------------------------------------------------------------------
  // Each block

  /** Marking a record does not change the key it is grouped by. */
  ghost predicate IgnoresStatus(keyOf: Record -> Key) {
    forall doc: Record, status: string :: keyOf(Stamp(doc, status)) == keyOf(doc)
  }

  /** The grouping key of every type ignores `status`. */
  lemma KeyFnIgnoresStatus(t: DocType)
    ensures IgnoresStatus(KeyFn(t))
  {
    forall doc: Record, status: string ensures KeyFn(t)(Stamp(doc, status)) == KeyFn(t)(doc) {
      StatusIsNoKeyField(doc, t, status);
    }
  }

  /** Every record of a group has the group's key. */
  lemma SortedMembersKey(docs: seq<Record>, keyOf: Record -> Key, key: Key)
    ensures forall i | 0 <= i < |SortByFileName(Members(docs, keyOf, key))| ::
      keyOf(SortByFileName(Members(docs, keyOf, key))[i]) == key
  {
    var m := Members(docs, keyOf, key);
    var g := SortByFileName(m);
    SortByFileNameCorrect(m);
    MembersMembership(docs, keyOf, key);
    forall i | 0 <= i < |g| ensures keyOf(g[i]) == key {
      assert g[i] in multiset(m);
    }
  }

  /** Marking keeps keys (when they ignore `status`) and file names, hence order. */
  lemma MarkedKeepsKeysAndOrder(group: seq<Record>, keyOf: Record -> Key)
    requires IgnoresStatus(keyOf)
    ensures forall i | 0 <= i < |group| :: keyOf(Marked(group)[i]) == keyOf(group[i])
    ensures Sorted(group) ==> Sorted(Marked(group))
  {
    var m := Marked(group);
    forall i | 0 <= i < |group| ensures keyOf(m[i]) == keyOf(group[i]) && FileNameOf(m[i]) == FileNameOf(group[i]) {
      assert m[i] == Stamp(group[i], if i == 0 then "original" else "duplicate");
    }
  }

  /**
   * A block holds its group's records, all with the block's key, in
   * file-name order; the first is marked "original", the rest "duplicate".
   */
  lemma BlockShape(docs: seq<Record>, keyOf: Record -> Key, key: Key)
    requires IgnoresStatus(keyOf)
    ensures |Block(docs, keyOf, key)| == |Members(docs, keyOf, key)|
    ensures forall i | 0 <= i < |Block(docs, keyOf, key)| ::
      && keyOf(Block(docs, keyOf, key)[i]) == key
      && Block(docs, keyOf, key)[i]["status"] == (if i == 0 then "original" else "duplicate")
    ensures Sorted(Block(docs, keyOf, key))
    ensures multiset(Strip(Block(docs, keyOf, key))) == multiset(Strip(Members(docs, keyOf, key)))
  {
    var m := Members(docs, keyOf, key);
    var g := SortByFileName(m);
    SortByFileNameCorrect(m);
    SortedMembersKey(docs, keyOf, key);
    MarkedShape(g);
    MarkedKeepsKeysAndOrder(g, keyOf);
    StripPermutes(g, m);
  }

  /**
   * The "original" of a group is the first of its records, in input order,
   * with the smallest file name.
   */
  lemma BlockOriginal(docs: seq<Record>, keyOf: Record -> Key, key: Key)
    requires Members(docs, keyOf, key) != []
    ensures exists i: nat ::
      && IsFirstSmallest(Members(docs, keyOf, key), i)
      && Block(docs, keyOf, key)[0] == Stamp(Members(docs, keyOf, key)[i], "original")
  {
    var m := Members(docs, keyOf, key);
    SortHead(m);
    var i: nat :| IsFirstSmallest(m, i) && SortByFileName(m)[0] == m[i];
    assert Block(docs, keyOf, key)[0] == Stamp(m[i], "original");
  }

  // ---------------------------------------------------------------------
  // Nothing is lost or invented

  lemma {:induction false} StripAppend(a: seq<Record>, b: seq<Record>)
    ensures Strip(a + b) == Strip(a) + Strip(b)
  {
    var l, r := Strip(a + b), Strip(a) + Strip(b);
    forall i | 0 <= i < |l| ensures l[i] == r[i] {
      if i < |a| {
        assert (a + b)[i] == a[i];
      } else {
        assert (a + b)[i] == b[i - |a|];
      }
    }
  }

  /** Taking one record out of a sequence takes its unmarked copy out of the strip. */
  lemma StripRemove(b: seq<Record>, k: nat)
    requires k < |b|
    ensures multiset(Strip(b)) == multiset(Strip(b[..k] + b[k + 1..])) + multiset{Unmarked(b[k])}
  {
    var p, q := b[..k], b[k + 1..];
    assert Strip(b) == Strip(p) + [Unmarked(b[k])] + Strip(q);
    StripAppend(p, q);
  }

  /** Taking one record out of both sides of a permutation leaves a permutation. */
  lemma RemoveFromPermutation(a: seq<Record>, b: seq<Record>, k: nat)
    requires multiset(a) == multiset(b) && a != [] && k < |b| && b[k] == a[0]
    ensures multiset(a[1..]) == multiset(b[..k] + b[k + 1..])
  {
    var p, q := b[..k], b[k + 1..];
    assert b == p + [b[k]] + q;
    assert multiset(b) == multiset(p) + multiset{b[k]} + multiset(q);
    assert a == [a[0]] + a[1..];
    assert multiset(a) == multiset{a[0]} + multiset(a[1..]);
    calc {
      multiset(a[1..]);
      multiset(a) - multiset{a[0]};
      multiset(b) - multiset{b[k]};
      multiset(p) + multiset(q);
      multiset(p + q);
    }
  }

  /** Reordering records reorders their unmarked copies the same way. */
  lemma {:induction false} StripPermutes(a: seq<Record>, b: seq<Record>)
    requires multiset(a) == multiset(b)
    ensures multiset(Strip(a)) == multiset(Strip(b))
    decreases |a|
  {
    if a == [] {
      assert |b| == |multiset(b)| == 0;
    } else {
      assert a[0] in multiset(b);
      var k :| 0 <= k < |b| && b[k] == a[0];
      RemoveFromPermutation(a, b, k);
      StripPermutes(a[1..], b[..k] + b[k + 1..]);
      StripRemove(b, k);
      assert Strip(a) == [Unmarked(a[0])] + Strip(a[1..]);
    }
  }

  /** The members of the given keys, pooled. */
  function Pooled(docs: seq<Record>, keyOf: Record -> Key, keys: seq<Key>): multiset<Record>
    decreases |keys|
  {
    if keys == [] then multiset{}
    else Pooled(docs, keyOf, keys[..|keys| - 1]) + multiset(Members(docs, keyOf, keys[|keys| - 1]))
  }

  /** A record whose key is not among `keys` adds nothing to their pool. */
  lemma {:induction false} PooledOther(docs: seq<Record>, doc: Record, keyOf: Record -> Key, keys: seq<Key>)
    requires keyOf(doc) !in keys
    ensures Pooled(docs + [doc], keyOf, keys) == Pooled(docs, keyOf, keys)
    decreases |keys|
  {
    if keys != [] {
      PooledOther(docs, doc, keyOf, keys[..|keys| - 1]);
      assert (docs + [doc])[..|docs|] == docs;
    }
  }

  /** A record whose key is among distinct `keys` enters their pool once. */
  lemma {:induction false} PooledOwn(docs: seq<Record>, doc: Record, keyOf: Record -> Key, keys: seq<Key>)
    requires keyOf(doc) in keys && Extraction.Distinct(keys)
    ensures Pooled(docs + [doc], keyOf, keys) == Pooled(docs, keyOf, keys) + multiset{doc}
    decreases |keys|
  {
    var init := keys[..|keys| - 1];
    assert (docs + [doc])[..|docs|] == docs;
    if keyOf(doc) == keys[|keys| - 1] {
      PooledOther(docs, doc, keyOf, init);
    } else {
      assert keyOf(doc) in init by {
        var j :| 0 <= j < |keys| && keys[j] == keyOf(doc);
        assert init[j] == keys[j];
      }
      PooledOwn(docs, doc, keyOf, init);
    }
  }

  /** The groups of all listed keys pool every record. */
  lemma {:induction false} PooledAll(docs: seq<Record>, keyOf: Record -> Key)
    ensures Pooled(docs, keyOf, Order(docs, keyOf)) == multiset(docs)
    decreases |docs|
  {
    if docs != [] {
      var init, doc := docs[..|docs| - 1], docs[|docs| - 1];
      var prev := Order(init, keyOf);
      PooledAll(init, keyOf);
      OrderDistinct(init, keyOf);
      assert docs == init + [doc];
      if keyOf(doc) in prev {
        PooledOwn(init, doc, keyOf, prev);
      } else {
        PooledOther(init, doc, keyOf, prev);
        MembersOfUnseenKey(init, keyOf, keyOf(doc));
        assert (prev + [keyOf(doc)])[..|prev|] == prev;
      }
    }
  }

  /** The blocks of the given keys before marking. */
  function SortedBlocksOf(docs: seq<Record>, keyOf: Record -> Key, keys: seq<Key>): seq<seq<Record>> {
    seq(|keys|, j requires 0 <= j < |keys| => SortByFileName(Members(docs, keyOf, keys[j])))
  }

  lemma {:induction false} SortedBlocksPool(docs: seq<Record>, keyOf: Record -> Key, keys: seq<Key>)
    ensures multiset(Concat(SortedBlocksOf(docs, keyOf, keys))) == Pooled(docs, keyOf, keys)
    decreases |keys|
  {
    if keys != [] {
      var n := |keys|;
      var blocks := SortedBlocksOf(docs, keyOf, keys);
      assert blocks[..n - 1] == SortedBlocksOf(docs, keyOf, keys[..n - 1]);
      SortedBlocksPool(docs, keyOf, keys[..n - 1]);
      SortByFileNameCorrect(Members(docs, keyOf, keys[n - 1]));
    }
  }

  /** Marking leaves the concatenation unchanged outside `status`. */
  lemma {:induction false} MarkedBlocksStrip(docs: seq<Record>, keyOf: Record -> Key, keys: seq<Key>)
    ensures Strip(Concat(BlocksOf(docs, keyOf, keys))) == Strip(Concat(SortedBlocksOf(docs, keyOf, keys)))
    decreases |keys|
  {
    if keys != [] {
      var n := |keys|;
      var marked, sorted := BlocksOf(docs, keyOf, keys), SortedBlocksOf(docs, keyOf, keys);
      assert marked[..n - 1] == BlocksOf(docs, keyOf, keys[..n - 1]);
      assert sorted[..n - 1] == SortedBlocksOf(docs, keyOf, keys[..n - 1]);
      MarkedBlocksStrip(docs, keyOf, keys[..n - 1]);
      MarkedShape(sorted[n - 1]);
      StripAppend(Concat(marked[..n - 1]), marked[n - 1]);
      StripAppend(Concat(sorted[..n - 1]), sorted[n - 1]);
    }
  }

  /**
   * The output is the input reordered, with nothing lost, duplicated or
   * changed except `status`.
   */
  lemma GroupedPermutes(docs: seq<Record>, keyOf: Record -> Key)
    ensures multiset(Strip(Grouped(docs, keyOf))) == multiset(Strip(docs))
  {
    var keys := Order(docs, keyOf);
    MarkedBlocksStrip(docs, keyOf, keys);
    SortedBlocksPool(docs, keyOf, keys);
    PooledAll(docs, keyOf);
    StripPermutes(Concat(SortedBlocksOf(docs, keyOf, keys)), docs);
  }

  // ---------------------------------------------------------------------
  // One original per group

  predicate IsOriginal(doc: Record) {
    "status" in doc && doc["status"] == "original"
  }

  /** The keys of the records marked "original", in output order. */
  function Originals(out: seq<Record>, keyOf: Record -> Key): seq<Key>
    decreases |out|
  {
    if out == [] then []
    else
      var prev := Originals(out[..|out| - 1], keyOf);
      if IsOriginal(out[|out| - 1]) then prev + [keyOf(out[|out| - 1])] else prev
  }

  lemma {:induction false} OriginalsAppend(a: seq<Record>, b: seq<Record>, keyOf: Record -> Key)
    ensures Originals(a + b, keyOf) == Originals(a, keyOf) + Originals(b, keyOf)
    decreases |b|
  {
    if b == [] {
      assert a + b == a;
    } else {
      var n := |b|;
      assert (a + b)[..|a + b| - 1] == a + b[..n - 1];
      OriginalsAppend(a, b[..n - 1], keyOf);
    }
  }

  /** A marked group of records sharing a key has exactly one original. */
  lemma OriginalsOfMarked(group: seq<Record>, keyOf: Record -> Key, key: Key)
    requires group != []
    requires forall i | 0 <= i < |group| :: keyOf(Marked(group)[i]) == key
    ensures Originals(Marked(group), keyOf) == [key]
  {
    var b := Marked(group);
    MarkedShape(group);
    assert b[..1] == [] + [b[0]];
    var n := 1;
    while n < |b|
      invariant 1 <= n <= |b|
      invariant Originals(b[..n], keyOf) == [key]
    {
      assert b[..n + 1][..n] == b[..n];
      assert !IsOriginal(b[n]);
      n := n + 1;
    }
    assert b[..n] == b;
  }

  /** A block has exactly one original, carrying the block's key. */
  lemma OriginalsOfBlock(docs: seq<Record>, keyOf: Record -> Key, key: Key)
    requires IgnoresStatus(keyOf)
    requires Members(docs, keyOf, key) != []
    ensures Originals(Block(docs, keyOf, key), keyOf) == [key]
  {
    var g := SortByFileName(Members(docs, keyOf, key));
    SortedMembersKey(docs, keyOf, key);
    MarkedKeepsKeysAndOrder(g, keyOf);
    OriginalsOfMarked(g, keyOf, key);
  }

  lemma {:induction false} OriginalsOfBlocks(docs: seq<Record>, keyOf: Record -> Key, keys: seq<Key>)
    requires IgnoresStatus(keyOf)
    requires forall k | k in keys :: k in Order(docs, keyOf)
    ensures Originals(Concat(BlocksOf(docs, keyOf, keys)), keyOf) == keys
    decreases |keys|
  {
    if keys != [] {
      var n := |keys|;
      var blocks := BlocksOf(docs, keyOf, keys);
      assert blocks[..n - 1] == BlocksOf(docs, keyOf, keys[..n - 1]);
      OriginalsOfBlocks(docs, keyOf, keys[..n - 1]);
      OriginalsAppend(Concat(blocks[..n - 1]), blocks[n - 1], keyOf);
      MembersOfSeenKey(docs, keyOf, keys[n - 1]);
      OriginalsOfBlock(docs, keyOf, keys[n - 1]);
      assert keys == keys[..n - 1] + [keys[n - 1]];
    }
  }

  /**
   * Reading the originals of the output gives every key once, in first-seen
   * order: each group has exactly one original.
   */
  lemma GroupedOriginals(docs: seq<Record>, keyOf: Record -> Key)
    requires IgnoresStatus(keyOf)
    ensures Originals(Grouped(docs, keyOf), keyOf) == Order(docs, keyOf)
  {
    OriginalsOfBlocks(docs, keyOf, Order(docs, keyOf));
  }

  // ---------------------------------------------------------------------
  // The pass

  /**
   * The first loop of the pass: `groups[key].append(doc)` for every record,
   * the dictionary's values kept in their keys' insertion order.
   */
  method CollectGroups(docs: seq<Record>, keyOf: Record -> Key) returns (groups: map<Key, seq<Record>>, order: seq<Key>)
    ensures order == Order(docs, keyOf)
    ensures forall key :: key in groups <==> key in order
    ensures forall key | key in groups :: groups[key] == Members(docs, keyOf, key)
  {
    groups, order := map[], [];
    for i := 0 to |docs|
      invariant order == Order(docs[..i], keyOf)
      invariant forall key :: key in groups <==> key in order
      invariant forall key | key in groups :: groups[key] == Members(docs[..i], keyOf, key)
    {
      var key := keyOf(docs[i]);
      assert docs[..i + 1][..i] == docs[..i];
      if key in groups {
        groups := groups[key := groups[key] + [docs[i]]];
      } else {
        MembersOfUnseenKey(docs[..i], keyOf, key);
        groups := groups[key := [docs[i]]];
        order := order + [key];
      }
    }
    assert docs[..|docs|] == docs;
  }

  /** Emitting one more group appends its block. */
  lemma ConcatBlocksStep(docs: seq<Record>, keyOf: Record -> Key, keys: seq<Key>, j: nat)
    requires j < |keys|
    ensures Concat(BlocksOf(docs, keyOf, keys[..j + 1])) == Concat(BlocksOf(docs, keyOf, keys[..j])) + Block(docs, keyOf, keys[j])
  {
    var blocks := BlocksOf(docs, keyOf, keys[..j + 1]);
    assert blocks[..j] == BlocksOf(docs, keyOf, keys[..j]);
  }

  /** `for i, doc in enumerate(group_docs)`: emits the marked copies of a sorted group. */
  method MarkGroup(group: seq<Record>) returns (marked: seq<Record>)
    ensures marked == Marked(group)
  {
    marked := [];
    for n := 0 to |group|
      invariant marked == Marked(group)[..n]
    {
      marked := marked + [Stamp(group[n], if n == 0 then "original" else "duplicate")];
    }
  }

  /**
   * The second loop of the pass: for each group in order, sort it by file
   * name and emit copies of its records, the first marked "original" and
   * the others "duplicate".
   */
  method EmitGroups(docs: seq<Record>, keyOf: Record -> Key, groups: map<Key, seq<Record>>, order: seq<Key>)
    returns (out: seq<Record>)
    requires forall key | key in order :: key in groups && groups[key] == Members(docs, keyOf, key)
    ensures out == Concat(BlocksOf(docs, keyOf, order))
  {
    out := [];
    for j := 0 to |order|
      invariant out == Concat(BlocksOf(docs, keyOf, order[..j]))
    {
      var group := SortByFileName(groups[order[j]]);
      var marked := MarkGroup(group);
      ConcatBlocksStep(docs, keyOf, order, j);
      out := out + marked;
    }
    assert order[..|order|] == order;
  }

  /**
   * The grouping pass of `process_documents` over the extracted records of
   * one type. Sorting reads `filename`, which every extracted record has.
   */
  method GroupAndMark(docs: seq<Record>, t: DocType) returns (out: seq<Record>)
    requires forall i | 0 <= i < |docs| :: "filename" in docs[i]
    ensures out == Grouped(docs, KeyFn(t))
  {
    var groups, order := CollectGroups(docs, KeyFn(t));
    out := EmitGroups(docs, KeyFn(t), groups, order);
  }

  /**
   * The pass for the records of type `t`: nothing lost or changed but
   * `status`, and exactly one original per key, keys in first-seen order.
   */
  lemma GroupingPass(docs: seq<Record>, t: DocType)
    ensures multiset(Strip(Grouped(docs, KeyFn(t)))) == multiset(Strip(docs))
    ensures Originals(Grouped(docs, KeyFn(t)), KeyFn(t)) == Order(docs, KeyFn(t))
    ensures Extraction.Distinct(Order(docs, KeyFn(t)))
  {
    GroupedPermutes(docs, KeyFn(t));
    KeyFnIgnoresStatus(t);
    GroupedOriginals(docs, KeyFn(t));
    OrderDistinct(docs, KeyFn(t));
  }
}
