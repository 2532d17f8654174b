/** Column discovery (`findColumns`): each field's `colprint` tag is parsed
    into a directive, tagged fields become columns in declaration order,
    and the columns are then sorted by their order key with `sort.Sort`. */
module Columns {
  import opened Wrappers
  import opened Text
  import opened Decimal
  import opened Values

  /** `math.MaxInt32`, the order of a column whose tag gives none. */
  const MaxInt32: int := 0x7fff_ffff

  /** One printed column: the field it reads, its header label (Go's
      `Label`; `label` is a reserved word in Dafny) and its sort key. */
  datatype Column = Column(fieldName: string, title: string, order: int)

  /** What a tag asks for. `Ignored` is a tag of three or more
      comma-separated parts, which colprint drops without an error. */
  datatype Directive =
    | Skip
    | Labelled(title: string, order: int)
    | Ignored
    | BadOrder

  /** The only error discovery reports. */
  datatype Error = InvalidOrder(fieldName: string)

  const MessagePrefix: string := "Invalid order on field "

  /** The error text colprint builds with `fmt.Errorf`. */
  function Message(e: Error): string
  {
    MessagePrefix + e.fieldName
  }

  /** The message names the offending field: it can be read back from the
      text, so distinct fields give distinct messages. */
  lemma MessageNamesField(e: Error, e': Error)
    ensures Message(e)[|MessagePrefix|..] == e.fieldName
    ensures Message(e) == Message(e') ==> e == e'
  {
    assert Message(e)[|MessagePrefix|..] == e.fieldName;
    assert Message(e')[|MessagePrefix|..] == e'.fieldName;
  }

  lemma SplitWithoutSeparator(s: string, c: char)
    requires Count(c, s) == 0
    ensures Split(s, c) == [s]
  {
    var parts := Split(s, c);
    assert Join(parts, [c]) == parts[0];
  }

  lemma SplitAtOnlySeparator(s: string, c: char, p: int)
    requires Count(c, s) == 1
    requires 0 <= p < |s| && s[p] == c
    ensures Split(s, c) == [s[..p], s[p + 1..]]
  {
    var parts := Split(s, c);
    assert parts[1..] == [parts[1]];
    assert Join(parts[1..], [c]) == parts[1];
    assert s == parts[0] + [c] + parts[1];
    assert s[..p] == parts[0];
    assert s[p + 1..] == parts[1];
  }

  /** The directive of one tag, as `findColumns` reads it: an empty tag or
      "-" is skipped; a tag without a comma is a label with the largest
      32-bit order; a tag with one comma is a label and an order that must
      parse with `strconv.Atoi`; a tag with more commas is dropped. */
  function ParseTag(tag: string): (d: Directive)
    ensures tag == "" || tag == "-" ==> d == Skip
    ensures tag != "" && tag != "-" && Count(',', tag) == 0 ==> d == Labelled(tag, MaxInt32)
    ensures forall p :: 0 <= p < |tag| && tag[p] == ',' && Count(',', tag) == 1 ==>
              d == (if ParseInt(tag[p + 1..]).Some?
                    then Labelled(tag[..p], ParseInt(tag[p + 1..]).value)
                    else BadOrder)
    ensures Count(',', tag) >= 2 ==> d == Ignored
  {
    if tag == "" || tag == "-" then
      assert tag == "-" ==> tag[1..] == "";
      assert Count(',', tag) == 0;
      Skip
    else
      var parts := Split(tag, ',');
      if |parts| == 1 then
        SplitWithoutSeparator(tag, ',');
        Labelled(parts[0], MaxInt32)
      else if |parts| == 2 then
        assert forall p :: 0 <= p < |tag| && tag[p] == ',' ==> parts == [tag[..p], tag[p + 1..]] by {
          forall p | 0 <= p < |tag| && tag[p] == ',' ensures parts == [tag[..p], tag[p + 1..]] {
            SplitAtOnlySeparator(tag, ',', p);
          }
        }
        match ParseInt(parts[1])
        case Some(order) => Labelled(parts[0], order)
        case None => BadOrder
      else Ignored
  }

  /** The column a field contributes, if its tag asks for one, stated
      against the tag text: none for "" or "-", the whole tag as label
      with order `MaxInt32` when it has no comma, the text around its only
      comma when the order parses, and none otherwise. */
  function ColumnOf(f: Field): (c: Option<Column>)
    ensures c.Some? ==> c.value.fieldName == f.name
    ensures f.tag == "" || f.tag == "-" ==> c.None?
    ensures f.tag != "" && f.tag != "-" && Count(',', f.tag) == 0 ==>
              c == Some(Column(f.name, f.tag, MaxInt32))
    ensures forall p :: 0 <= p < |f.tag| && f.tag[p] == ',' && Count(',', f.tag) == 1 ==>
              c == (if ParseInt(f.tag[p + 1..]).Some?
                    then Some(Column(f.name, f.tag[..p], ParseInt(f.tag[p + 1..]).value))
                    else None)
    ensures Count(',', f.tag) >= 2 ==> c.None?
  {
    match ParseTag(f.tag)
    case Labelled(title, order) => Some(Column(f.name, title, order))
    case _ => None
  }

  /** The column `c`, if any, in front of `cols`. */
  function Prepend(c: Option<Column>, cols: seq<Column>): seq<Column>
  {
    if c.Some? then [c.value] + cols else cols
  }

  /** The columns of the tagged fields, in declaration order. */
  function Kept(fields: seq<Field>): (cols: seq<Column>)
    ensures |cols| <= |fields|
  {
    if |fields| == 0 then [] else Prepend(ColumnOf(fields[0]), Kept(fields[1..]))
  }

  /** Every kept column comes from a tagged field: the one returned. */
  lemma {:induction false} KeptSource(fields: seq<Field>, k: nat) returns (i: nat)
    requires k < |Kept(fields)|
    ensures i < |fields| && ColumnOf(fields[i]) == Some(Kept(fields)[k])
  {
    var rest := Kept(fields[1..]);
    if ColumnOf(fields[0]).Some? && k == 0 {
      i := 0;
    } else {
      var shift := if ColumnOf(fields[0]).Some? then 1 else 0;
      assert Kept(fields) == Prepend(ColumnOf(fields[0]), rest);
      assert Kept(fields)[k] == rest[k - shift];
      var i' := KeptSource(fields[1..], k - shift);
      assert fields[1..][i'] == fields[i' + 1];
      i := i' + 1;
    }
  }

  /** Every tagged field's column is kept. */
  lemma {:induction false} KeptComplete(fields: seq<Field>, i: nat)
    requires i < |fields| && ColumnOf(fields[i]).Some?
    ensures ColumnOf(fields[i]).value in Kept(fields)
  {
    assert Kept(fields) == Prepend(ColumnOf(fields[0]), Kept(fields[1..]));
    if i > 0 {
      assert fields[i] == fields[1..][i - 1];
      KeptComplete(fields[1..], i - 1);
    }
  }

  /** Field `i` is the first whose tag has an order that does not parse. */
  predicate FirstBadOrder(fields: seq<Field>, i: int)
  {
    && 0 <= i < |fields|
    && ParseTag(fields[i].tag).BadOrder?
    && forall j :: 0 <= j < i ==> !ParseTag(fields[j].tag).BadOrder?
  }

  /** The first bad field after a good first field is the first bad one of
      the whole list. */
  lemma FirstBadOrderShift(fields: seq<Field>, e: Error)
    requires |fields| > 0 && !ParseTag(fields[0].tag).BadOrder?
    requires exists i :: FirstBadOrder(fields[1..], i) && e == InvalidOrder(fields[1..][i].name)
    ensures exists i :: FirstBadOrder(fields, i) && e == InvalidOrder(fields[i].name)
  {
    var i :| FirstBadOrder(fields[1..], i) && e == InvalidOrder(fields[1..][i].name);
    assert fields[1..][i] == fields[i + 1];
    forall j | 0 <= j < i + 1 ensures !ParseTag(fields[j].tag).BadOrder? {
      if j > 0 {
        assert fields[j] == fields[1..][j - 1];
      }
    }
    assert FirstBadOrder(fields, i + 1);
  }

  lemma AllGoodShift(fields: seq<Field>)
    requires |fields| > 0
    ensures (forall i :: 0 <= i < |fields| ==> !ParseTag(fields[i].tag).BadOrder?) <==>
            (!ParseTag(fields[0].tag).BadOrder? &&
             forall i :: 0 <= i < |fields[1..]| ==> !ParseTag(fields[1..][i].tag).BadOrder?)
  {
    assert forall i :: 1 <= i < |fields| ==> fields[i] == fields[1..][i - 1];
  }

  /** The discovery loop: stops at the first field with a bad order,
      otherwise collects the columns of the tagged fields. */
  function Discover(fields: seq<Field>): (r: Result<seq<Column>, Error>)
    ensures r.Success? <==> forall i :: 0 <= i < |fields| ==> !ParseTag(fields[i].tag).BadOrder?
    ensures r.Failure? ==> exists i :: FirstBadOrder(fields, i) && r.error == InvalidOrder(fields[i].name)
    ensures r.Success? ==> r.value == Kept(fields)
  {
    if |fields| == 0 then Success([])
    else if ParseTag(fields[0].tag).BadOrder? then
      assert FirstBadOrder(fields, 0);
      Failure(InvalidOrder(fields[0].name))
    else
      var tail := Discover(fields[1..]);
      AllGoodShift(fields);
      if tail.Failure? then
        FirstBadOrderShift(fields, tail.error);
        Failure(tail.error)
      else
        Success(Prepend(ColumnOf(fields[0]), tail.value))
  }

  /** `columns.Less`: strictly smaller order. Columns of equal order are
      incomparable, so `sort.Sort` may leave them in any relative order. */
  predicate Less(a: Column, b: Column)
  {
    a.order < b.order
  }

  /** What `sort.Sort` guarantees: no column is Less than one before it. */
  predicate Sorted(cols: seq<Column>)
  {
    forall i, j :: 0 <= i < j < |cols| ==> !Less(cols[j], cols[i])
  }

  /** Places `c` into sorted `cols` before the first column of greater
      order. */
  function Insert(c: Column, cols: seq<Column>): (r: seq<Column>)
    requires Sorted(cols)
    ensures Sorted(r)
    ensures multiset(r) == multiset(cols) + multiset{c}
    ensures forall k :: 0 <= k < |r| ==> r[k] == c || r[k] in cols
  {
    if |cols| == 0 || cols[0].order >= c.order then
      SortedCons(c, cols);
      [c] + cols
    else
      var rest := Insert(c, cols[1..]);
      assert cols == [cols[0]] + cols[1..];
      assert forall k :: 0 <= k < |rest| ==> cols[0].order <= rest[k].order by {
        forall k | 0 <= k < |rest| ensures cols[0].order <= rest[k].order {
          if rest[k] != c {
            var m :| 0 <= m < |cols[1..]| && cols[1..][m] == rest[k];
            assert cols[1..][m] == cols[m + 1];
            assert !Less(cols[m + 1], cols[0]);
          }
        }
      }
      SortedCons(cols[0], rest);
      [cols[0]] + rest
  }

  /** A column no greater than every column of a sorted list can go in
      front of it. */
  lemma SortedCons(c: Column, cols: seq<Column>)
    requires Sorted(cols)
    requires forall k :: 0 <= k < |cols| ==> c.order <= cols[k].order
    ensures Sorted([c] + cols)
  {
    var r := [c] + cols;
    forall i, j | 0 <= i < j < |r| ensures !Less(r[j], r[i]) {
      assert r[j] == cols[j - 1];
      if i > 0 {
        assert r[i] == cols[i - 1];
      }
    }
  }

  /** One ordering `sort.Sort` may produce (here, insertion sort). Only
      its being a sorted permutation is relied upon. */
  function SortColumns(cols: seq<Column>): (r: seq<Column>)
    ensures Sorted(r)
    ensures multiset(r) == multiset(cols)
  {
    if |cols| == 0 then []
    else
      assert cols == [cols[0]] + cols[1..];
      Insert(cols[0], SortColumns(cols[1..]))
  }

  /** `findColumns` on a record: fails on the first field whose order does
      not parse, naming it; otherwise yields the tagged fields' columns
      sorted by order. */
  function FindColumns(rec: Record): (r: Result<seq<Column>, Error>)
    ensures r.Success? <==> forall i :: 0 <= i < |rec.fields| ==> !ParseTag(rec.fields[i].tag).BadOrder?
    ensures r.Failure? ==> exists i :: FirstBadOrder(rec.fields, i) && r.error == InvalidOrder(rec.fields[i].name)
    ensures r.Success? ==> Sorted(r.value) && multiset(r.value) == multiset(Kept(rec.fields))
    ensures r.Success? ==> forall i, j :: 0 <= i < |r.value| && 0 <= j < |r.value| && r.value[i].order < r.value[j].order ==> i < j
    ensures r.Success? ==> forall k :: 0 <= k < |r.value| ==> HasField(rec, r.value[k].fieldName)
  {
    match Discover(rec.fields)
    case Failure(e) => Failure(e)
    case Success(cols) =>
      var sorted := SortColumns(cols);
      SortedOrderLaw(sorted);
      PermutedColumnsAreFields(rec, sorted);
      Success(sorted)
  }

  /** In a sorted list a column of smaller order comes first. */
  lemma SortedOrderLaw(cols: seq<Column>)
    requires Sorted(cols)
    ensures forall i, j :: 0 <= i < |cols| && 0 <= j < |cols| && cols[i].order < cols[j].order ==> i < j
  {
  }

  lemma PermutedColumnsAreFields(rec: Record, cols: seq<Column>)
    requires multiset(cols) == multiset(Kept(rec.fields))
    ensures forall k :: 0 <= k < |cols| ==> HasField(rec, cols[k].fieldName)
  {
    var kept := Kept(rec.fields);
    forall k | 0 <= k < |cols| ensures HasField(rec, cols[k].fieldName) {
      assert cols[k] in multiset(cols);
      var m := IndexOf(cols[k], kept);
      var i := KeptSource(rec.fields, m);
      assert rec.fields[i].name == cols[k].fieldName;
    }
  }

  /** The order keys of a column list, in list order. */
  function Orders(cols: seq<Column>): seq<int>
  {
    seq(|cols|, k requires 0 <= k < |cols| => cols[k].order)
  }

  /** A position at which `x` occurs in `s`. */
  lemma IndexOf(x: Column, s: seq<Column>) returns (j: int)
    requires x in multiset(s)
    ensures 0 <= j < |s| && s[j] == x
  {
    assert x in s;
    j :| 0 <= j < |s| && s[j] == x;
  }

  lemma SortedWithout(b: seq<Column>, j: int)
    requires Sorted(b) && 0 <= j < |b|
    ensures Sorted(b[..j] + b[j + 1..])
  {
    var b' := b[..j] + b[j + 1..];
    forall x, y | 0 <= x < y < |b'| ensures !Less(b'[y], b'[x]) {
      var x' := if x < j then x else x + 1;
      var y' := if y < j then y else y + 1;
      assert b'[x] == b[x'] && b'[y] == b[y'];
    }
  }

  lemma MultisetWithout(b: seq<Column>, j: int)
    requires 0 <= j < |b|
    ensures multiset(b[..j] + b[j + 1..]) == multiset(b) - multiset{b[j]}
  {
    assert b == b[..j] + [b[j]] + b[j + 1..];
  }

  /** Taking out a column of the least order from a sorted list leaves the
      order keys of the rest. */
  lemma OrdersWithout(b: seq<Column>, j: int)
    requires Sorted(b) && 0 <= j < |b| && b[j].order == b[0].order
    ensures Orders(b) == [b[0].order] + Orders(b[..j] + b[j + 1..])
  {
    var b' := b[..j] + b[j + 1..];
    var rhs := [b[0].order] + Orders(b');
    forall k | 0 <= k < |b| ensures Orders(b)[k] == rhs[k] {
      if 0 < k <= j {
        assert !Less(b[k], b[0]) && !Less(b[j], b[k]);
        assert !Less(b[k - 1], b[0]) && !Less(b[j], b[k - 1]);
        assert b'[k - 1] == b[k - 1];
      } else if k > j {
        assert b'[k - 1] == b[k];
      }
    }
  }

  /** Any two sorted permutations of the same columns have the same order
      keys position by position: whatever tie order `sort.Sort` picks, it
      moves columns only among others of the same order. */
  lemma {:induction false} SortedPermutationsAgreeOnOrders(a: seq<Column>, b: seq<Column>)
    requires Sorted(a) && Sorted(b)
    requires multiset(a) == multiset(b)
    ensures Orders(a) == Orders(b)
    decreases |a|
  {
    assert |a| == |multiset(a)| == |multiset(b)| == |b|;
    if |a| > 0 {
      var j := IndexOf(a[0], b);
      var i := IndexOf(b[0], a);
      LeastOrdersMatch(a, b, i, j);
      var b' := b[..j] + b[j + 1..];
      SortedWithout(b, j);
      MultisetWithout(b, j);
      SortedTail(a);
      MultisetTail(a);
      SortedPermutationsAgreeOnOrders(a[1..], b');
      OrdersWithout(b, j);
      OrdersTail(a);
    }
  }

  lemma LeastOrdersMatch(a: seq<Column>, b: seq<Column>, i: int, j: int)
    requires Sorted(a) && Sorted(b)
    requires 0 <= i < |a| && 0 <= j < |b| && a[i] == b[0] && b[j] == a[0]
    ensures a[0].order == b[0].order
  {
    assert !Less(a[i], a[0]);
    assert !Less(b[j], b[0]);
  }

  lemma SortedTail(a: seq<Column>)
    requires Sorted(a) && |a| > 0
    ensures Sorted(a[1..])
  {
    forall x, y | 0 <= x < y < |a[1..]| ensures !Less(a[1..][y], a[1..][x]) {
      assert a[1..][x] == a[x + 1] && a[1..][y] == a[y + 1];
    }
  }

  lemma MultisetTail(a: seq<Column>)
    requires |a| > 0
    ensures multiset(a[1..]) == multiset(a) - multiset{a[0]}
  {
    assert a == [a[0]] + a[1..];
  }

  lemma OrdersTail(a: seq<Column>)
    requires |a| > 0
    ensures Orders(a) == [a[0].order] + Orders(a[1..])
  {
  }

  /** The schema depends only on the fields' names and tags, not on their
      values: every record of one struct type yields the same columns. */
  lemma {:induction false} SchemaIgnoresValues(f: seq<Field>, g: seq<Field>)
    requires |f| == |g|
    requires forall i :: 0 <= i < |f| ==> f[i].name == g[i].name && f[i].tag == g[i].tag
    ensures Discover(f) == Discover(g)
    ensures FindColumns(Record(f)) == FindColumns(Record(g))
  {
    if |f| > 0 {
      SchemaIgnoresValues(f[1..], g[1..]);
    }
  }
}
