/**
 * The seats-distribution editor of the airplane-type forms: a sparse map from
 * row position to seat count, its three edits, its submit guard and its two
 * renderings as dash-separated text.
 */
module SeatsLayout {
  import opened Wrappers
  import opened Strings
  import opened Decimal

  /** Row position to seat count; None is a row present but not filled in (`null`). */
  type Layout = map<nat, Option<int>>

  const MaxAllowedSeatsRows: nat := 8
  const Separator: char := '-'

  /** The layout a new airplane type starts from: `{ 0: 1 }`. */
  function DefaultLayout(): (m: Layout)
    ensures 0 in m && |m| == 1
  {
    map[0 := Some(1)]
  }

  // ---------------------------------------------------------------------------
  // Ascending key order (JavaScript enumerates integer keys in ascending order)
  // ---------------------------------------------------------------------------

  lemma {:induction false} LeastOf(s: set<nat>) returns (k: nat)
    requires s != {}
    ensures k in s && forall j :: j in s ==> k <= j
    decreases |s|
  {
    var x :| x in s;
    if s == {x} {
      k := x;
    } else {
      var lo := LeastOf(s - {x});
      k := if x < lo then x else lo;
      forall j | j in s
        ensures k <= j
      {
        if j != x {
          assert j in s - {x};
        }
      }
    }
  }

  lemma {:induction false} GreatestOf(s: set<nat>) returns (k: nat)
    requires s != {}
    ensures k in s && forall j :: j in s ==> j <= k
    decreases |s|
  {
    var x :| x in s;
    if s == {x} {
      k := x;
    } else {
      var hi := GreatestOf(s - {x});
      k := if x > hi then x else hi;
      forall j | j in s
        ensures j <= k
      {
        if j != x {
          assert j in s - {x};
        }
      }
    }
  }

  lemma LeastExists(s: set<nat>)
    requires s != {}
    ensures exists k :: k in s && forall j :: j in s ==> k <= j
  {
    var k := LeastOf(s);
  }

  lemma GreatestExists(s: set<nat>)
    requires s != {}
    ensures exists k :: k in s && forall j :: j in s ==> j <= k
  {
    var k := GreatestOf(s);
  }

  /** The smallest position of a non-empty set. */
  function Least(s: set<nat>): (k: nat)
    requires s != {}
    ensures k in s && forall j :: j in s ==> k <= j
  {
    LeastExists(s);
    var k :| k in s && forall j :: j in s ==> k <= j;
    k
  }

  /** `Math.max(...keys)` of a non-empty set of positions. */
  function Greatest(s: set<nat>): (k: nat)
    requires s != {}
    ensures k in s && forall j :: j in s ==> j <= k
  {
    GreatestExists(s);
    var k :| k in s && forall j :: j in s ==> j <= k;
    k
  }

  predicate StrictlyIncreasing(ks: seq<nat>) {
    forall i, j :: 0 <= i < j < |ks| ==> ks[i] < ks[j]
  }

  /**
   * `ks` lists exactly the elements of `s`, in ascending order: distinct
   * members of `s`, as many as `s` has.
   */
  predicate Enumerates(ks: seq<nat>, s: set<nat>) {
    && StrictlyIncreasing(ks)
    && |ks| == |s|
    && (forall i :: 0 <= i < |ks| ==> ks[i] in s)
  }

  /** Every member of an enumerated set has its index in the enumeration. */
  lemma {:induction false} IndexOf(ks: seq<nat>, s: set<nat>, k: nat) returns (i: nat)
    requires Enumerates(ks, s) && k in s
    ensures i < |ks| && ks[i] == k
    decreases |ks|
  {
    if ks[0] == k {
      i := 0;
    } else {
      var rest := s - {ks[0]};
      forall j | 0 <= j < |ks[1..]|
        ensures ks[1..][j] in rest
      {
        assert ks[0] < ks[j + 1];
      }
      var i' := IndexOf(ks[1..], rest, k);
      i := i' + 1;
    }
  }

  /** `Object.keys(m)` as positions: every key once, in ascending order. */
  function SortedKeys(s: set<nat>): (ks: seq<nat>)
    ensures Enumerates(ks, s)
    decreases |s|
  {
    if s == {} then []
    else
      var k := Least(s);
      [k] + SortedKeys(s - {k})
  }

  /** The ascending enumeration of a set is the only one. */
  lemma {:induction false} SortedKeysUnique(s: set<nat>, ks: seq<nat>)
    requires Enumerates(ks, s)
    ensures SortedKeys(s) == ks
    decreases |ks|
  {
    if |ks| > 0 {
      assert ks[0] in s;
      var l := Least(s);
      assert l == ks[0] by {
        var j := IndexOf(ks, s, l);
        assert ks[0] <= ks[j];
      }
      var rest := s - {l};
      forall i | 0 <= i < |ks[1..]|
        ensures ks[1..][i] in rest
      {
        assert ks[0] < ks[i + 1];
      }
      SortedKeysUnique(rest, ks[1..]);
    }
  }

  /** `Object.values(m)`: the row values in ascending position order. */
  function Values(m: Layout): (vs: seq<Option<int>>)
    ensures |vs| == |m|
  {
    var ks := SortedKeys(m.Keys);
    seq(|ks|, i requires 0 <= i < |ks| => m[ks[i]])
  }

  /** Values can be read through any ascending enumeration of the keys. */
  lemma ValuesThrough(m: Layout, ks: seq<nat>)
    requires Enumerates(ks, m.Keys)
    ensures SortedKeys(m.Keys) == ks && |ks| == |m|
    ensures forall i :: 0 <= i < |ks| ==> Values(m)[i] == m[ks[i]]
  {
    SortedKeysUnique(m.Keys, ks);
  }

  // ---------------------------------------------------------------------------
  // Rendering and the submit guard
  // ---------------------------------------------------------------------------

  /** How `join` (blank "") or the display (blank "X") writes one row. */
  function CellText(c: Option<int>, blank: string): string {
    match c
    case Some(n) => IntToString(n)
    case None => blank
  }

  function CellTexts(cs: seq<Option<int>>, blank: string): (ts: seq<string>)
    ensures |ts| == |cs|
  {
    seq(|cs|, i requires 0 <= i < |cs| => CellText(cs[i], blank))
  }

  /** `Object.values(m).join("-")`, where a null row joins as empty text. */
  function Serialize(m: Layout): string {
    Join(CellTexts(Values(m), ""), Separator)
  }

  /** `Object.values(m).map(x => x ?? "X").join("-")`. */
  function Display(m: Layout): string {
    Join(CellTexts(Values(m), "X"), Separator)
  }

  /** `Object.values(m).some(x => x === null)`. */
  predicate HasUnfilled(m: Layout) {
    None in Values(m)
  }

  /** The guard sees a null row exactly when some position holds null. */
  lemma UnfilledIff(m: Layout)
    ensures HasUnfilled(m) <==> exists k :: k in m && m[k] == None
  {
    var ks := SortedKeys(m.Keys);
    if exists k :: k in m && m[k] == None {
      var k :| k in m && m[k] == None;
      var i := IndexOf(ks, m.Keys, k);
      assert Values(m)[i] == None;
    }
    if HasUnfilled(m) {
      var i :| 0 <= i < |Values(m)| && Values(m)[i] == None;
      assert m[ks[i]] == None;
    }
  }

  /** No text `IntToString` produces contains "X". */
  lemma NoMarkInNumbers(n: int)
    ensures 'X' !in IntToString(n)
  {
    var d := NatToString(if n < 0 then -n else n);
    assert forall i :: 0 <= i < |d| ==> IsDigit(d[i]);
  }

  /** No row holds a negative count. */
  predicate NonNegative(m: Layout) {
    forall k :: k in m && m[k].Some? ==> m[k].value >= 0
  }

  /** The display shows the submitted text exactly when no row is unfilled. */
  lemma {:induction false} DisplayIsSerializedIff(m: Layout)
    ensures Display(m) == Serialize(m) <==> !HasUnfilled(m)
  {
    var vs := Values(m);
    var shown, sent := CellTexts(vs, "X"), CellTexts(vs, "");
    if !HasUnfilled(m) {
      assert shown == sent by {
        forall i | 0 <= i < |vs|
          ensures shown[i] == sent[i]
        {
          assert vs[i] != None;
        }
      }
    } else {
      var i :| 0 <= i < |vs| && vs[i] == None;
      assert 'X' in shown[i];
      JoinContains(shown, Separator, 'X');
      JoinContains(sent, Separator, 'X');
      forall j | 0 <= j < |sent|
        ensures 'X' !in sent[j]
      {
        if vs[j].Some? {
          NoMarkInNumbers(vs[j].value);
        }
      }
      assert 'X' in Display(m) && 'X' !in Serialize(m);
    }
  }

  /**
   * With non-negative counts, the display has one dash-separated token per row,
   * and a token is "X" exactly when that row is unfilled.
   */
  lemma {:induction false} DisplayMarksUnfilled(m: Layout)
    requires m != map[] && NonNegative(m)
    ensures |Split(Display(m), Separator)| == |m|
    ensures forall i :: 0 <= i < |m| ==>
              (Split(Display(m), Separator)[i] == "X" <==> Values(m)[i] == None)
  {
    var vs := Values(m);
    var ks := SortedKeys(m.Keys);
    var shown := CellTexts(vs, "X");
    forall i | 0 <= i < |shown|
      ensures Separator !in shown[i]
      ensures shown[i] == "X" <==> vs[i] == None
    {
      assert vs[i] == m[ks[i]];
      if vs[i].Some? {
        var d := NatToString(vs[i].value);
        assert IsDigit(d[0]) && forall j :: 0 <= j < |d| ==> IsDigit(d[j]);
        assert shown[i] == d;
      }
    }
    SplitJoin(shown, Separator);
  }

  // ---------------------------------------------------------------------------
  // Reading a stored distribution
  // ---------------------------------------------------------------------------

  function Positions(n: nat): (ks: seq<nat>)
    ensures |ks| == n && forall i :: 0 <= i < n ==> ks[i] == i
  {
    seq(n, i requires 0 <= i < n => i)
  }

  /** The layout whose row i holds `cells[i]`. */
  function Rows(cells: seq<Option<int>>): (m: Layout)
    ensures forall k: nat :: k in m <==> k < |cells|
    ensures forall k :: 0 <= k < |cells| ==> m[k] == cells[k]
  {
    map i: nat | i < |cells| :: cells[i]
  }

  /** The layout read from n cells has n rows. */
  lemma {:induction false} RowsSize(cells: seq<Option<int>>)
    ensures |Rows(cells)| == |cells|
  {
    if |cells| > 0 {
      var n := |cells| - 1;
      var front := Rows(cells[..n]);
      RowsSize(cells[..n]);
      assert Rows(cells).Keys == front.Keys + {n};
      assert n !in front.Keys;
    }
  }

  /** Rows numbered 0..n-1 come out in their own order. */
  lemma RowsInOrder(cells: seq<Option<int>>)
    ensures |Rows(cells)| == |cells|
    ensures SortedKeys(Rows(cells).Keys) == Positions(|cells|)
    ensures Values(Rows(cells)) == cells
  {
    var m := Rows(cells);
    var ps := Positions(|cells|);
    RowsSize(cells);
    assert StrictlyIncreasing(ps);
    assert forall i :: 0 <= i < |ps| ==> ps[i] in m.Keys;
    ValuesThrough(m, ps);
    assert forall i :: 0 <= i < |cells| ==> Values(m)[i] == cells[i];
  }

  /** `parseInt` on each token of `s.split("-")`. */
  function ParsedTokens(s: string): (cells: seq<Option<int>>)
    ensures |cells| == |Split(s, Separator)|
  {
    var tokens := Split(s, Separator);
    seq(|tokens|, i requires 0 <= i < |tokens| => ParseInt(tokens[i]))
  }

  /**
   * `s.split("-").reduce((acc, cur, i) => { acc[i] = parseInt(cur); ... }, {})`:
   * row i holds token i. None where a token is not an integer literal, on
   * which `parseInt` would give NaN or read only a prefix.
   */
  function ParseLayout(s: string): Option<Layout> {
    var cells := ParsedTokens(s);
    if None in cells then None else Some(Rows(cells))
  }

  /** A stored distribution whose every token is written as `String` writes numbers. */
  predicate IsCanonicalDistribution(s: string) {
    forall i :: 0 <= i < |Split(s, Separator)| ==> IsCanonical(Split(s, Separator)[i])
  }

  /**
   * A parsed distribution has positions exactly 0..n-1, row i holding token i,
   * as many rows as there are dashes plus one, so at least one row.
   */
  lemma ParsedRows(s: string)
    requires ParseLayout(s).Some?
    ensures var m := ParseLayout(s).value;
            && (forall k: nat :: k in m <==> k < |Split(s, Separator)|)
            && |m| == |Split(s, Separator)| == multiset(s)[Separator] + 1
            && SortedKeys(m.Keys) == Positions(|m|)
            && Values(m) == ParsedTokens(s)
  {
    SplitCount(s, Separator);
    RowsInOrder(ParsedTokens(s));
  }

  /** Parsing then serialising a canonical distribution gives it back. */
  lemma {:induction false} SerializeParse(s: string)
    requires IsCanonicalDistribution(s)
    ensures ParseLayout(s).Some?
    ensures Serialize(ParseLayout(s).value) == s
  {
    var tokens := Split(s, Separator);
    var cells := ParsedTokens(s);
    forall i | 0 <= i < |tokens|
      ensures cells[i] == Some(DigitsValue(tokens[i]) as int)
      ensures CellText(cells[i], "") == tokens[i]
    {
      IntToStringOfParseInt(tokens[i]);
    }
    assert None !in cells;
    RowsInOrder(cells);
    assert CellTexts(cells, "") == tokens;
    JoinSplit(s, Separator);
  }

  /** The rows in order, renumbered 0..n-1: what a save and reload leaves. */
  function Compacted(m: Layout): Layout {
    Rows(Values(m))
  }

  /**
   * Serialising a filled layout with non-negative counts and parsing it back
   * gives the same rows in the same order, renumbered from 0.
   */
  lemma {:induction false} ParseSerialize(m: Layout)
    requires m != map[] && !HasUnfilled(m) && NonNegative(m)
    ensures ParseLayout(Serialize(m)) == Some(Compacted(m))
  {
    var vs := Values(m);
    var ks := SortedKeys(m.Keys);
    var texts := CellTexts(vs, "");
    forall i | 0 <= i < |texts|
      ensures Separator !in texts[i]
      ensures ParseInt(texts[i]) == vs[i]
    {
      assert vs[i] == m[ks[i]];
      var d := NatToString(vs[i].value);
      assert IsDigit(d[0]) && forall j :: 0 <= j < |d| ==> IsDigit(d[j]);
      assert texts[i] == IntToString(vs[i].value) == d;
      ParseIntOfIntToString(vs[i].value);
    }
    SplitJoin(texts, Separator);
    assert ParsedTokens(Serialize(m)) == vs;
  }

  // ---------------------------------------------------------------------------
  // The three edits
  // ---------------------------------------------------------------------------

  /**
   * `handleSeatsDistributionAdd`: at MaxAllowedSeatsRows rows or more nothing
   * changes; otherwise a row of 1 seat is added after the greatest position.
   */
  function AddRow(m: Layout): (r: Layout)
    requires m != map[]
    ensures |m| >= MaxAllowedSeatsRows ==> r == m
    ensures |m| < MaxAllowedSeatsRows ==>
              && r.Keys - m.Keys == {Greatest(m.Keys) + 1}
              && (forall k :: k in m ==> k in r && r[k] == m[k] && k < Greatest(m.Keys) + 1)
              && r[Greatest(m.Keys) + 1] == Some(1)
              && |r| == |m| + 1
  {
    if |m| >= MaxAllowedSeatsRows then m else m[Greatest(m.Keys) + 1 := Some(1)]
  }

  /**
   * `handleSeatsDistributionRemove`: with one row nothing changes; otherwise
   * only the given position goes (absent positions change nothing), and no
   * other row is renumbered or altered.
   */
  function RemoveRow(m: Layout, index: nat): (r: Layout)
    ensures |m| == 1 ==> r == m
    ensures |m| != 1 ==> r.Keys == m.Keys - {index}
    ensures forall k :: k in r ==> k in m && r[k] == m[k]
    ensures m != map[] ==> r != map[]
  {
    if |m| == 1 then m
    else
      var r := m - {index};
      assert r.Keys == m.Keys - {index};
      assert m != map[] ==> |r.Keys| >= |m.Keys| - 1 > 0;
      r
  }

  /** What the seat-count input may send: cleared, or an integer literal. */
  predicate AcceptedInput(raw: string) {
    raw == "" || ParseInt(raw).Some?
  }

  /** `value === "" ? null : parseInt(value)`. */
  function Cell(raw: string): (c: Option<int>)
    requires AcceptedInput(raw)
    ensures c == None <==> raw == ""
  {
    if raw == "" then None else ParseInt(raw)
  }

  /**
   * `handleSeatsDistributionChange`: the given position takes the input
   * (null when cleared); it is added if absent; nothing else changes.
   */
  function ChangeRow(m: Layout, index: nat, raw: string): (r: Layout)
    requires AcceptedInput(raw)
    ensures r.Keys == m.Keys + {index}
    ensures forall k :: k in m && k != index ==> r[k] == m[k]
    ensures r[index] == None <==> raw == ""
    ensures raw != "" ==> r[index] == ParseInt(raw)
  {
    m[index := Cell(raw)]
  }

  /** The "Agregar fila" button is disabled at MaxAllowedSeatsRows rows or more. */
  predicate AddDisabled(m: Layout) {
    |m| >= MaxAllowedSeatsRows
  }

  /** The "Eliminar fila" buttons are disabled when one row is left. */
  predicate RemoveDisabled(m: Layout) {
    |m| == 1
  }

  /** The add button is disabled exactly when adding would change nothing. */
  lemma AddDisabledIff(m: Layout)
    requires m != map[]
    ensures AddDisabled(m) <==> AddRow(m) == m
  {
    if !AddDisabled(m) {
      assert |AddRow(m)| == |m| + 1;
    }
  }

  /**
   * The remove buttons are disabled exactly when removing would change nothing
   * for every position, and otherwise removing any present row changes the map.
   */
  lemma RemoveDisabledIff(m: Layout)
    ensures RemoveDisabled(m) ==> forall i: nat :: RemoveRow(m, i) == m
    ensures !RemoveDisabled(m) ==> forall k :: k in m ==> RemoveRow(m, k) != m
  {
    if !RemoveDisabled(m) {
      forall k | k in m
        ensures RemoveRow(m, k) != m
      {
        assert k !in RemoveRow(m, k);
      }
    }
  }

  /** A position above all others joins the end of the order. */
  lemma SortedKeysAppend(s: set<nat>, top: nat)
    requires forall k :: k in s ==> k < top
    ensures SortedKeys(s + {top}) == SortedKeys(s) + [top]
  {
    var ks := SortedKeys(s);
    var ks' := ks + [top];
    assert top !in s;
    forall i, j | 0 <= i < j < |ks'|
      ensures ks'[i] < ks'[j]
    {
      if j == |ks| {
        assert ks'[i] == ks[i] && ks[i] in s;
      }
    }
    assert forall i :: 0 <= i < |ks'| ==> ks'[i] in s + {top};
    SortedKeysUnique(s + {top}, ks');
  }

  lemma DropAt<T>(xs: seq<T>, p: nat, i: nat)
    requires p < |xs| && i < |xs| - 1
    ensures (xs[..p] + xs[p + 1..])[i] == xs[if i < p then i else i + 1]
  {
  }

  /** Dropping one element keeps a strictly increasing sequence so. */
  lemma DropKeepsIncreasing(ks: seq<nat>, p: nat)
    requires StrictlyIncreasing(ks) && p < |ks|
    ensures StrictlyIncreasing(ks[..p] + ks[p + 1..])
  {
    var d := ks[..p] + ks[p + 1..];
    forall i, j | 0 <= i < j < |d|
      ensures d[i] < d[j]
    {
      var i' := if i < p then i else i + 1;
      var j' := if j < p then j else j + 1;
      DropAt(ks, p, i);
      DropAt(ks, p, j);
      assert d[i] == ks[i'] && d[j] == ks[j'] && i' < j';
    }
  }

  /** Taking out the position at index p of the order closes the gap. */
  lemma SortedKeysRemove(s: set<nat>, p: nat)
    requires p < |s|
    ensures var ks := SortedKeys(s);
            SortedKeys(s - {ks[p]}) == ks[..p] + ks[p + 1..]
  {
    var ks := SortedKeys(s);
    var rest := s - {ks[p]};
    var ks' := ks[..p] + ks[p + 1..];
    assert ks[p] in s;
    DropKeepsIncreasing(ks, p);
    forall i | 0 <= i < |ks'|
      ensures ks'[i] in rest
    {
      DropAt(ks, p, i);
    }
    SortedKeysUnique(rest, ks');
  }

  /** Adding below the limit appends a row of 1 seat at the end of the order. */
  lemma AddAppendsValue(m: Layout)
    requires m != map[] && |m| < MaxAllowedSeatsRows
    ensures Values(AddRow(m)) == Values(m) + [Some(1)]
  {
    var r := AddRow(m);
    var top := Greatest(m.Keys) + 1;
    var ks := SortedKeys(m.Keys);
    SortedKeysAppend(m.Keys, top);
    assert r.Keys == m.Keys + {top};
    var vs := Values(m) + [Some(1)];
    forall i | 0 <= i < |vs|
      ensures r[(ks + [top])[i]] == vs[i]
    {
      if i < |ks| {
        assert (ks + [top])[i] == ks[i];
      }
    }
    ValuesEq(r, ks + [top], vs);
  }

  /** Adding below the limit appends "-1" to the submitted text. */
  lemma AddAppendsRow(m: Layout)
    requires m != map[] && |m| < MaxAllowedSeatsRows
    ensures Values(AddRow(m)) == Values(m) + [Some(1)]
    ensures Serialize(AddRow(m)) == Serialize(m) + "-1"
  {
    AddAppendsValue(m);
    JoinCellsAppend(Values(m), Some(1), "");
    assert CellText(Some(1), "") == "1";
  }

  /** Removing a row by its position drops its value and keeps the order of the rest. */
  lemma RemoveDropsRow(m: Layout, p: nat)
    requires 1 < |m| && p < |m|
    ensures var vs := Values(m);
            Values(RemoveRow(m, SortedKeys(m.Keys)[p])) == vs[..p] + vs[p + 1..]
  {
    var ks := SortedKeys(m.Keys);
    var r := m - {ks[p]};
    assert RemoveRow(m, ks[p]) == r;
    var vs := Values(m);
    var ks' := ks[..p] + ks[p + 1..];
    var vs' := vs[..p] + vs[p + 1..];
    SortedKeysRemove(m.Keys, p);
    assert r.Keys == m.Keys - {ks[p]};
    forall i | 0 <= i < |vs'|
      ensures r[ks'[i]] == vs'[i]
    {
      DropAt(ks, p, i);
      DropAt(vs, p, i);
    }
    ValuesEq(r, ks', vs');
  }

  /** Values read through the ascending order of the keys. */
  lemma ValuesEq(m: Layout, ks: seq<nat>, vs: seq<Option<int>>)
    requires SortedKeys(m.Keys) == ks && |vs| == |ks|
    requires forall i :: 0 <= i < |ks| ==> m[ks[i]] == vs[i]
    ensures Values(m) == vs
  {
  }

  lemma JoinCellsAppend(cs: seq<Option<int>>, c: Option<int>, blank: string)
    requires |cs| >= 1
    ensures Join(CellTexts(cs + [c], blank), Separator)
         == Join(CellTexts(cs, blank), Separator) + [Separator] + CellText(c, blank)
  {
    assert CellTexts(cs + [c], blank) == CellTexts(cs, blank) + [CellText(c, blank)];
    JoinAppend(CellTexts(cs, blank), CellText(c, blank), Separator);
  }

  /** Changing a present row replaces its value in place in the order. */
  lemma ChangeReplacesRow(m: Layout, p: nat, raw: string)
    requires p < |m| && AcceptedInput(raw)
    ensures Values(ChangeRow(m, SortedKeys(m.Keys)[p], raw)) == Values(m)[p := Cell(raw)]
  {
    var ks := SortedKeys(m.Keys);
    var r := ChangeRow(m, ks[p], raw);
    assert r.Keys == m.Keys;
    ValuesThrough(r, ks);
  }

  // ---------------------------------------------------------------------------
  // Sequences of edits
  // ---------------------------------------------------------------------------

  /** What a user can do to the editor. */
  datatype Edit = Add | Remove(index: nat) | Change(index: nat, raw: string)

  /** The form only offers inputs for rows that exist, and inputs send integers. */
  predicate Offered(m: Layout, e: Edit) {
    e.Change? ==> e.index in m && AcceptedInput(e.raw)
  }

  function Step(m: Layout, e: Edit): (r: Layout)
    requires m != map[] && Offered(m, e)
    ensures r != map[]
  {
    match e
    case Add => AddRow(m)
    case Remove(i) => RemoveRow(m, i)
    case Change(i, raw) => ChangeRow(m, i, raw)
  }

  predicate AllOffered(m: Layout, es: seq<Edit>)
    requires m != map[]
    decreases |es|
  {
    |es| == 0 || (Offered(m, es[0]) && AllOffered(Step(m, es[0]), es[1..]))
  }

  function Run(m: Layout, es: seq<Edit>): (r: Layout)
    requires m != map[] && AllOffered(m, es)
    ensures r != map[]
    decreases |es|
  {
    if |es| == 0 then m else Run(Step(m, es[0]), es[1..])
  }

  /** From a layout of 1 to 8 rows, every sequence of edits stays within 1 to 8 rows. */
  lemma {:induction false} RowCountStaysInBounds(m: Layout, es: seq<Edit>)
    requires 1 <= |m| <= MaxAllowedSeatsRows
    requires AllOffered(m, es)
    ensures 1 <= |Run(m, es)| <= MaxAllowedSeatsRows
    decreases |es|
  {
    if |es| > 0 {
      var m' := Step(m, es[0]);
      match es[0] {
        case Add =>
        case Remove(i) =>
          assert m'.Keys == m.Keys - {i} || m' == m;
        case Change(i, raw) =>
          assert m'.Keys == m.Keys;
      }
      RowCountStaysInBounds(m', es[1..]);
    }
  }

  /** A new airplane type's editor starts at one row and stays within 1 to 8 rows. */
  lemma DefaultLayoutStaysInBounds(es: seq<Edit>)
    requires AllOffered(DefaultLayout(), es)
    ensures 1 <= |Run(DefaultLayout(), es)| <= MaxAllowedSeatsRows
    ensures Serialize(DefaultLayout()) == "1" && !HasUnfilled(DefaultLayout())
  {
    RowCountStaysInBounds(DefaultLayout(), es);
    ValuesThrough(DefaultLayout(), [0]);
  }

  /** Add and Remove are offered on every non-empty layout, so any sequence of them is. */
  lemma {:induction false} AddRemoveOffered(m: Layout, es: seq<Edit>)
    requires m != map[]
    requires forall i :: 0 <= i < |es| ==> !es[i].Change?
    ensures AllOffered(m, es)
    decreases |es|
  {
    if |es| > 0 {
      AddRemoveOffered(Step(m, es[0]), es[1..]);
    }
  }
}
