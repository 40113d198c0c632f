/**
 * Bani detection and the keyword shortcut of the search route: the
 * priority table of Nitnem names, the literal catalogue-name match, and
 * the table of shortcut keywords.
 */
module Resolver {
  import opened Text
  import opened Wrappers
  import opened Catalog

  // =====================================================================
  // MANUAL_BANI_MAP and its longest-first resolution
  // =====================================================================

  /** The priority table, in the key order of the source's object literal. */
  const BaniMap: seq<(string, int)> := [
    ("japji", 2), ("japji sahib", 2), ("jaap", 4), ("jaap sahib", 4), ("tav prasad", 6), ("savaiye", 6),
    ("chaupai", 9), ("chaupai sahib", 9), ("anand", 10), ("anand sahib", 10), ("rehras", 21),
    ("rehras sahib", 21), ("sohila", 23), ("kirtan sohila", 23), ("sohila sahib", 23), ("ardaas", 24),
    ("ardaas sahib", 24), ("sukhmani", 31), ("sukhmani sahib", 31), ("asa di var", 11),
    ("shabad hazare", 3), ("shabad hazaare", 3), ("salok mahala 9", 30)
  ]

  /** Keys never grow shorter from left to right. */
  ghost predicate LongestFirst(xs: seq<(string, int)>) {
    forall i, j :: 0 <= i < j < |xs| ==> |xs[i].0| >= |xs[j].0|
  }

  /** Inserts `x` before the first strictly shorter key, so keys of equal length keep their order. */
  function InsertByLength(x: (string, int), sorted: seq<(string, int)>): (r: seq<(string, int)>)
    ensures |r| == |sorted| + 1
    ensures forall y :: y in r <==> y == x || y in sorted
    ensures LongestFirst(sorted) ==> LongestFirst(r)
  {
    if sorted == [] || |sorted[0].0| < |x.0| then
      [x] + sorted
    else
      var rest := InsertByLength(x, sorted[1..]);
      var r := [sorted[0]] + rest;
      assert LongestFirst(sorted) ==> LongestFirst(r) by {
        if LongestFirst(sorted) {
          forall i, j | 0 <= i < j < |r|
            ensures |r[i].0| >= |r[j].0|
          {
            if i == 0 {
              assert r[j] in rest;
              if r[j] != x {
                var k :| 0 <= k < |sorted[1..]| && sorted[1..][k] == r[j];
                assert sorted[k + 1] == r[j];
              }
            } else {
              assert r[i] == rest[i - 1] && r[j] == rest[j - 1];
            }
          }
        }
      }
      r
  }

  /**
   * `Object.keys(MANUAL_BANI_MAP).sort((a, b) => b.length - a.length)`:
   * a stable sort by decreasing key length (insertion sort).
   */
  function SortByLength(keys: seq<(string, int)>): (r: seq<(string, int)>)
    ensures |r| == |keys|
    ensures forall y :: y in r <==> y in keys
    ensures LongestFirst(r)
  {
    if keys == [] then []
    else
      var init := keys[..|keys| - 1];
      assert keys == init + [keys[|keys| - 1]];
      InsertByLength(keys[|keys| - 1], SortByLength(init))
  }

  lemma {:induction false} InsertPermutes(x: (string, int), sorted: seq<(string, int)>)
    ensures multiset(InsertByLength(x, sorted)) == multiset(sorted) + multiset{x}
  {
    if !(sorted == [] || |sorted[0].0| < |x.0|) {
      InsertPermutes(x, sorted[1..]);
      assert sorted == [sorted[0]] + sorted[1..];
    }
  }

  /** The sort only reorders: it is a permutation of the table. */
  lemma {:induction false} SortPermutes(keys: seq<(string, int)>)
    ensures multiset(SortByLength(keys)) == multiset(keys)
  {
    if keys != [] {
      var init := keys[..|keys| - 1];
      assert keys == init + [keys[|keys| - 1]];
      SortPermutes(init);
      InsertPermutes(keys[|keys| - 1], SortByLength(init));
    }
  }

  /** The pairs whose key has exactly `n` characters, in their order. */
  function OfLength(xs: seq<(string, int)>, n: nat): (r: seq<(string, int)>)
    ensures forall y :: y in r ==> y in xs && |y.0| == n
  {
    if xs == [] then [] else (if |xs[0].0| == n then [xs[0]] else []) + OfLength(xs[1..], n)
  }

  lemma {:induction false} OfLengthConcat(a: seq<(string, int)>, b: seq<(string, int)>, n: nat)
    ensures OfLength(a + b, n) == OfLength(a, n) + OfLength(b, n)
  {
    if a != [] {
      assert (a + b)[0] == a[0] && (a + b)[1..] == a[1..] + b;
      OfLengthConcat(a[1..], b, n);
    } else {
      assert a + b == b;
    }
  }

  lemma {:induction false} OfLengthNone(xs: seq<(string, int)>, n: nat)
    requires forall k :: 0 <= k < |xs| ==> |xs[k].0| != n
    ensures OfLength(xs, n) == []
  {
    if xs != [] {
      OfLengthNone(xs[1..], n);
    }
  }

  /** Dropping the head of a longest-first sequence keeps it longest-first. */
  lemma LongestFirstTail(sorted: seq<(string, int)>)
    requires sorted != [] && LongestFirst(sorted)
    ensures LongestFirst(sorted[1..])
  {
    var tail := sorted[1..];
    forall i, j | 0 <= i < j < |tail|
      ensures |tail[i].0| >= |tail[j].0|
    {
      assert tail[i] == sorted[i + 1] && tail[j] == sorted[j + 1];
    }
  }

  /** When `x` is longer than the head it goes in front, after no key of its length. */
  lemma InsertStableFront(x: (string, int), sorted: seq<(string, int)>, n: nat)
    requires LongestFirst(sorted)
    requires sorted != [] && |sorted[0].0| < |x.0|
    ensures OfLength(InsertByLength(x, sorted), n) == OfLength(sorted, n) + (if |x.0| == n then [x] else [])
  {
    if |x.0| == n {
      forall k | 0 <= k < |sorted|
        ensures |sorted[k].0| != n
      {
        if k > 0 {
          assert |sorted[0].0| >= |sorted[k].0|;
        }
      }
      OfLengthNone(sorted, n);
    }
    assert InsertByLength(x, sorted) == [x] + sorted;
    OfLengthConcat([x], sorted, n);
  }

  /** A common head does not change how the same-length keys of two sequences compare. */
  lemma {:induction false} OfLengthCons(h: (string, int), tail: seq<(string, int)>, ins: seq<(string, int)>, extra: seq<(string, int)>, n: nat)
    requires OfLength(ins, n) == OfLength(tail, n) + extra
    ensures OfLength([h] + ins, n) == OfLength([h] + tail, n) + extra
  {
    var a, b := OfLength([h], n), OfLength(tail, n);
    calc {
      OfLength([h] + ins, n);
      { OfLengthConcat([h], ins, n); }
      a + (b + extra);
      (a + b) + extra;
      { OfLengthConcat([h], tail, n); }
      OfLength([h] + tail, n) + extra;
    }
  }

  /** Inserting `x` puts it after every key of its own length. */
  lemma {:induction false} InsertStable(x: (string, int), sorted: seq<(string, int)>, n: nat)
    requires LongestFirst(sorted)
    ensures OfLength(InsertByLength(x, sorted), n) == OfLength(sorted, n) + (if |x.0| == n then [x] else [])
  {
    if sorted == [] {
    } else if |sorted[0].0| < |x.0| {
      InsertStableFront(x, sorted, n);
    } else {
      var tail := sorted[1..];
      var extra := if |x.0| == n then [x] else [];
      calc {
        OfLength(InsertByLength(x, sorted), n);
        OfLength([sorted[0]] + InsertByLength(x, tail), n);
        { LongestFirstTail(sorted);
          InsertStable(x, tail, n);
          OfLengthCons(sorted[0], tail, InsertByLength(x, tail), extra, n); }
        OfLength([sorted[0]] + tail, n) + extra;
        { assert sorted == [sorted[0]] + tail; }
        OfLength(sorted, n) + extra;
      }
    }
  }

  /**
   * The sort is stable: keys of one length keep their table order, so
   * ties between equally long keys go to the one listed first.
   */
  lemma {:induction false} SortStable(keys: seq<(string, int)>, n: nat)
    ensures OfLength(SortByLength(keys), n) == OfLength(keys, n)
  {
    if keys != [] {
      var init := keys[..|keys| - 1];
      var last := keys[|keys| - 1];
      var extra := if |last.0| == n then [last] else [];
      calc {
        OfLength(SortByLength(keys), n);
        OfLength(InsertByLength(last, SortByLength(init)), n);
        { InsertStable(last, SortByLength(init), n); }
        OfLength(SortByLength(init), n) + extra;
        { SortStable(init, n); }
        OfLength(init, n) + extra;
        { assert OfLength([last], n) == extra by { assert [last][1..] == []; }
          OfLengthConcat(init, [last], n); }
        OfLength(init + [last], n);
        { assert keys == init + [last]; }
        OfLength(keys, n);
      }
    }
  }

  /** The first pair whose key the query includes. */
  function FirstContained(xs: seq<(string, int)>, q: string): (r: Option<nat>)
    ensures r.Some? ==>
      r.value < |xs| && Includes(q, xs[r.value].0) && forall j :: 0 <= j < r.value ==> !Includes(q, xs[j].0)
    ensures r.None? ==> forall j :: 0 <= j < |xs| ==> !Includes(q, xs[j].0)
  {
    if xs == [] then None
    else if Includes(q, xs[0].0) then Some(0)
    else
      var r := FirstContained(xs[1..], q);
      if r.None? then None else Some(r.value + 1)
  }

  /** The id of the first key, in sorted order, that the trimmed query includes. */
  function PriorityIn(table: seq<(string, int)>, q: string): Option<int> {
    var sorted := SortByLength(table);
    var k := FirstContained(sorted, q);
    if k.None? then None else Some(sorted[k.value].1)
  }

  /** Priority resolution against `MANUAL_BANI_MAP`. */
  function PriorityBani(q: string): Option<int> {
    PriorityIn(BaniMap, q)
  }

  /** The priority loop: walks the sorted keys and stops at the first one the query includes. */
  method PriorityBaniId(table: seq<(string, int)>, q: string) returns (manualBaniId: Option<int>)
    ensures manualBaniId == PriorityIn(table, q)
  {
    var sortedKeys := SortByLength(table);
    manualBaniId := None;
    var i := 0;
    while i < |sortedKeys|
      invariant 0 <= i <= |sortedKeys|
      invariant forall j :: 0 <= j < i ==> !Includes(q, sortedKeys[j].0)
    {
      if Includes(q, sortedKeys[i].0) {
        manualBaniId := Some(sortedKeys[i].1);
        FirstContainedAt(sortedKeys, q, i);
        return;
      }
      i := i + 1;
    }
  }

  lemma {:induction false} FirstContainedAt(xs: seq<(string, int)>, q: string, i: nat)
    requires i < |xs| && Includes(q, xs[i].0)
    requires forall j :: 0 <= j < i ==> !Includes(q, xs[j].0)
    ensures FirstContained(xs, q) == Some(i)
  {
    if i > 0 {
      FirstContainedAt(xs[1..], q, i - 1);
    }
  }

  /**
   * A priority hit comes from a table key the query includes, and no
   * strictly longer key is included; there is no hit exactly when the
   * query includes no key.
   */
  lemma PriorityIsLongest(table: seq<(string, int)>, q: string)
    ensures PriorityIn(table, q).Some? ==>
      exists i :: 0 <= i < |table| && table[i].1 == PriorityIn(table, q).value && Includes(q, table[i].0)
        && forall j :: 0 <= j < |table| && |table[j].0| > |table[i].0| ==> !Includes(q, table[j].0)
    ensures PriorityIn(table, q).None? <==> forall i :: 0 <= i < |table| ==> !Includes(q, table[i].0)
  {
    var sorted := SortByLength(table);
    var k := FirstContained(sorted, q);
    if k.Some? {
      var p := sorted[k.value];
      FirstContainedIsLongest(sorted, q);
      assert p in table;
      var i :| 0 <= i < |table| && table[i] == p;
      forall j | 0 <= j < |table| && |table[j].0| > |table[i].0|
        ensures !Includes(q, table[j].0)
      {
        assert table[j] in sorted;
      }
    } else {
      forall i | 0 <= i < |table|
        ensures !Includes(q, table[i].0)
      {
        assert table[i] in sorted;
        var j :| 0 <= j < |sorted| && sorted[j] == table[i];
      }
    }
  }

  /** In a longest-first list no key longer than the first included one is included. */
  lemma FirstContainedIsLongest(sorted: seq<(string, int)>, q: string)
    requires LongestFirst(sorted) && FirstContained(sorted, q).Some?
    ensures var p := sorted[FirstContained(sorted, q).value];
      forall p' :: p' in sorted && |p'.0| > |p.0| ==> !Includes(q, p'.0)
  {
    var k := FirstContained(sorted, q).value;
    assert forall j :: k < j < |sorted| ==> |sorted[j].0| <= |sorted[k].0|;
    forall p' | p' in sorted && |p'.0| > |sorted[k].0|
      ensures !Includes(q, p'.0)
    {
      var j :| 0 <= j < |sorted| && sorted[j] == p';
    }
  }

  /** When the query includes exactly one table key, that key's bani is chosen. */
  lemma PriorityUnique(table: seq<(string, int)>, q: string, i: nat)
    requires i < |table| && Includes(q, table[i].0)
    requires forall j :: 0 <= j < |table| && Includes(q, table[j].0) ==> table[j] == table[i]
    ensures PriorityIn(table, q) == Some(table[i].1)
  {
    var sorted := SortByLength(table);
    assert table[i] in sorted;
    var k := FirstContained(sorted, q);
    assert sorted[k.value] in table;
  }

  const AnandQuery: string := "anand bhaya meri maaye"

  /** For every key but `"anand"` (index 8), a character of it that the Anand query lacks. */
  const AnandMissing: string := "jjjjtscc-ssssksssssssss"

  lemma AnandMissingChars(j: int)
    requires 0 <= j < |BaniMap| && j != 8
    ensures AnandMissing[j] in BaniMap[j].0 && AnandMissing[j] !in AnandQuery
  {
    if j < 8 {
      AnandMissingBefore(j);
    } else {
      AnandMissingAfter(j);
    }
  }

  lemma AnandMissingBefore(j: int)
    requires 0 <= j < 8
    ensures AnandMissing[j] in BaniMap[j].0 && AnandMissing[j] !in AnandQuery
  {
  }

  lemma AnandMissingAfter(j: int)
    requires 8 < j < |BaniMap|
    ensures AnandMissing[j] in BaniMap[j].0 && AnandMissing[j] !in AnandQuery
  {
  }

  /** The opening words of Anand Sahib resolve to bani 10, through the key `"anand"`. */
  lemma AnandExample()
    ensures PriorityBani(AnandQuery) == Some(10)
  {
    var q := AnandQuery;
    assert BaniMap[8] == ("anand", 10);
    assert "anand" <= q;
    forall j | 0 <= j < |BaniMap| && Includes(q, BaniMap[j].0)
      ensures BaniMap[j] == BaniMap[8]
    {
      if j != 8 {
        AnandMissingChars(j);
        IncludesMissingChar(q, BaniMap[j].0, AnandMissing[j]);
      }
    }
    PriorityUnique(BaniMap, q, 8);
  }

  // =====================================================================
  // containsMatch and the bani decision
  // =====================================================================

  /** `(b.name || b.transliteration || "").toLowerCase()`. */
  function CatalogName(e: Entry): string {
    Lower(if e.name != "" then e.name else e.transliteration)
  }

  /** The literal acceptance test of `containsMatch`. */
  predicate NameAccepts(q: string, e: Entry) {
    var name := CatalogName(e);
    |name| > 3 && (q == name || name + " " <= q)
  }

  /** The index of the first entry from `i` on that the literal test accepts, or `|list|`. */
  function ContainsMatchFrom(q: string, list: seq<Entry>, i: nat): (k: nat)
    requires i <= |list|
    ensures i <= k <= |list|
    ensures k < |list| ==> NameAccepts(q, list[k])
    ensures forall j :: i <= j < k ==> !NameAccepts(q, list[j])
    decreases |list| - i
  {
    if i == |list| then i
    else if NameAccepts(q, list[i]) then i
    else ContainsMatchFrom(q, list, i + 1)
  }

  /** `baniList.find(...)`: the first catalogue entry the literal test accepts. */
  function FindContainsMatch(q: string, list: seq<Entry>): (r: Option<Entry>)
    ensures r.Some? ==>
      exists i :: 0 <= i < |list| && list[i] == r.value && NameAccepts(q, list[i])
        && forall j :: 0 <= j < i ==> !NameAccepts(q, list[j])
    ensures r.None? <==> forall i :: 0 <= i < |list| ==> !NameAccepts(q, list[i])
  {
    var k := ContainsMatchFrom(q, list, 0);
    if k < |list| then Some(list[k]) else None
  }

  /** The catalogue entry with `manualBaniId`, or the stand-in `{ name: "Gurbani", id }`. */
  function EntryWithId(list: seq<Entry>, id: int): (r: Entry)
    ensures EntryId(r) == id || r in list
    ensures r in list ==> EntryId(r) == id
    ensures (exists k :: 0 <= k < |list| && EntryId(list[k]) == id) ==>
      exists k :: 0 <= k < |list| && r == list[k] && EntryId(list[k]) == id
        && forall j :: 0 <= j < k ==> EntryId(list[j]) != id
    ensures (forall k :: 0 <= k < |list| ==> EntryId(list[k]) != id) ==> r == Entry(id, 0, 0, "Gurbani", "")
  {
    if list == [] then Entry(id, 0, 0, "Gurbani", "")
    else if EntryId(list[0]) == id then list[0]
    else EntryWithId(list[1..], id)
  }

  /** The bani chosen for a query: its id (0 when none) and the catalogue entry it came from. */
  datatype BaniChoice = BaniChoice(baniId: int, matched: Option<Entry>)

  /**
   * Bani detection after the priority loop: a priority hit wins; otherwise,
   * with a non-empty catalogue, the literal name match or else the fuzzy
   * hit (`fuzzy`, the best Fuse result when its score is below 0.4).
   */
  function ResolveBani(manual: Option<int>, q: string, list: seq<Entry>, fuzzy: Option<Entry>): BaniChoice {
    if manual.Some? && manual.value != 0 then
      BaniChoice(manual.value, Some(EntryWithId(list, manual.value)))
    else if |list| > 0 then
      var containsMatch := FindContainsMatch(q, list);
      if fuzzy.Some? || containsMatch.Some? then
        var m := if containsMatch.Some? then containsMatch.value else fuzzy.value;
        BaniChoice(EntryId(m), Some(m))
      else BaniChoice(0, None)
    else BaniChoice(0, None)
  }

  /**
   * Precedence of bani detection: a priority hit decides alone; without
   * one the literal match beats the fuzzy hit; with neither, or with an
   * empty catalogue, no bani is chosen.
   */
  lemma BaniPrecedence(q: string, list: seq<Entry>, fuzzy: Option<Entry>)
    ensures var c := ResolveBani(PriorityBani(q), q, list, fuzzy);
      (PriorityBani(q).Some? ==> c.baniId == PriorityBani(q).value)
      && (PriorityBani(q).None? && FindContainsMatch(q, list).Some? ==>
            c.matched == FindContainsMatch(q, list) && c.baniId == EntryId(c.matched.value))
      && (PriorityBani(q).None? && (list == [] || (fuzzy.None? && FindContainsMatch(q, list).None?)) ==>
            c.baniId == 0)
  {
    if PriorityBani(q).Some? {
      PriorityPositive(q);
    }
  }

  /** Every id of the priority table is positive, so a priority hit is never falsy. */
  lemma PriorityPositive(q: string)
    ensures PriorityBani(q).Some? ==> PriorityBani(q).value > 0
  {
    BaniIdsPositive();
    PriorityFromTable(BaniMap, q);
  }

  lemma BaniIdsPositive()
    ensures forall i :: 0 <= i < |BaniMap| ==> BaniMap[i].1 > 0
  {
  }

  /** A priority hit is the id of some pair of the table. */
  lemma PriorityFromTable(table: seq<(string, int)>, q: string)
    ensures PriorityIn(table, q).Some? ==> exists i :: 0 <= i < |table| && table[i].1 == PriorityIn(table, q).value
  {
    PriorityIsLongest(table, q);
  }

  /** The name reported with a bani result. */
  function BaniName(c: BaniChoice): string {
    if c.matched.Some? then
      (if c.matched.value.name != "" then c.matched.value.name else c.matched.value.transliteration)
    else "Gurbani"
  }

  // =====================================================================
  // MANUAL_KEYWORD_MAP
  // =====================================================================

  /** The shortcut table. */
  const KeywordMap: seq<(string, int)> := [("waheguru", 31020), ("w w w", 31020), ("www", 31020), ("simran", 31020)]

  function LookupOwn(m: seq<(string, int)>, key: string): (r: Option<int>)
    ensures r.Some? <==> exists i :: 0 <= i < |m| && m[i].0 == key
    ensures r.Some? ==> exists i :: 0 <= i < |m| && m[i] == (key, r.value)
  {
    if m == [] then None
    else if m[0].0 == key then Some(m[0].1)
    else
      var r := LookupOwn(m[1..], key);
      assert forall i :: 0 <= i < |m| - 1 ==> m[1..][i] == m[i + 1];
      r
  }

  /** The shortcut: an own key of the table gives its shabad id. */
  function KeywordShortcut(q: string): Option<int> {
    LookupOwn(KeywordMap, q)
  }

  /** Only the four keywords hit the shortcut, and all of them give shabad 31020. */
  lemma KeywordShortcutExact(q: string)
    ensures KeywordShortcut(q).Some? <==> q == "waheguru" || q == "w w w" || q == "www" || q == "simran"
    ensures KeywordShortcut(q).Some? ==> KeywordShortcut(q).value == 31020
  {
    var r := KeywordShortcut(q);
    if r.Some? {
      var i :| 0 <= i < |KeywordMap| && KeywordMap[i] == (q, r.value);
      assert i == 0 || i == 1 || i == 2 || i == 3;
    } else {
      var keys := ["waheguru", "w w w", "www", "simran"];
      assert forall i :: 0 <= i < |KeywordMap| ==> KeywordMap[i].0 == keys[i];
    }
  }

  /** What `MANUAL_KEYWORD_MAP[q]` reads on a plain object literal. */
  datatype PropertyRead = Absent | NumberValue(n: int) | InheritedMember(name: string)

  /** The members of `Object.prototype` whose names are entirely lower case. */
  const LowerCaseInheritedMembers: seq<string> := ["constructor", "__proto__"]

  /** The lookup as written: own keys, and then the members every object inherits. */
  function KeywordLookupAsWritten(q: string): PropertyRead {
    var own := LookupOwn(KeywordMap, q);
    if own.Some? then NumberValue(own.value)
    else if q in LowerCaseInheritedMembers then InheritedMember(q)
    else Absent
  }

  /** JavaScript truthiness of the value read. */
  predicate Truthy(v: PropertyRead) {
    (v.NumberValue? && v.n != 0) || v.InheritedMember?
  }

  /**
   * As written, the query `"constructor"` (a lower-cased query can be
   * nothing else but this or `"__proto__"` among the inherited names)
   * reads a truthy value, the `Object` function, and so skips the search
   * cascade; the own-key lookup the model uses finds nothing.
   */
  lemma InheritedKeyHitsAsWritten()
    ensures Truthy(KeywordLookupAsWritten("constructor"))
    ensures Truthy(KeywordLookupAsWritten("__proto__"))
    ensures KeywordShortcut("constructor").None? && KeywordShortcut("__proto__").None?
  {
    KeywordShortcutExact("constructor");
    KeywordShortcutExact("__proto__");
  }

  /** Apart from the two inherited names the as-written lookup agrees with the own-key shortcut. */
  lemma AsWrittenAgreesElsewhere(q: string)
    requires q !in LowerCaseInheritedMembers
    ensures Truthy(KeywordLookupAsWritten(q)) <==> KeywordShortcut(q).Some?
  {
    KeywordShortcutExact(q);
  }
}
