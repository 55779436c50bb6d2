/** Assembling the interface table of a device from the walks of ifTable and ifXTable. */
module Interfaces {
  import opened Prelude
  import opened Oids

  const IF_ENTRY := "1.3.6.1.2.1.2.2.1"
  const IFX_ENTRY := "1.3.6.1.2.1.31.1.1.1"
  const MAX_INTERFACES := 512

  /**
   * A walked variable: text is its value when that is an octet string or string, number what the
   * SNMP library converts the value to, None where the value has no such form.
   */
  datatype PDU = PDU(name: string, text: Option<string>, number: Option<int>)

  datatype SNMPInterface = SNMPInterface(
    ifIndex: int, name: string, alias: string, ifType: int, speedMbps: int,
    adminStatus: int, operStatus: int, inOctets: int, outOctets: int, inErrors: int, outErrors: int)

  /** A row under construction; hcIn and hcOut are set once a 64-bit counter has been seen. */
  datatype Row = Row(
    iface: SNMPInterface, descr: string, spdBps: int, spdMbps: int, hcIn: Option<int>, hcOut: Option<int>)

  // ------------------------------------------------------------------ values

  /** Unicode white space. */
  predicate IsSpace(c: char) {
    var n := c as int;
    (9 <= n <= 13) || n == 32 || n == 0x85 || n == 0xA0 || n == 0x1680 || (0x2000 <= n <= 0x200a)
    || n == 0x2028 || n == 0x2029 || n == 0x202f || n == 0x205f || n == 0x3000
  }

  function TrimSpace(s: string): (r: string)
    ensures r != "" ==> !IsSpace(r[0]) && !IsSpace(r[|r| - 1])
  {
    if s != "" && IsSpace(s[0]) then TrimSpace(s[1..])
    else if s != "" && IsSpace(s[|s| - 1]) then TrimSpace(s[..|s| - 1])
    else s
  }

  lemma Prepend(c: char, lead: string, mid: string, tail: string)
    ensures [c] + (lead + mid + tail) == [c] + lead + mid + tail
    ensures forall d :: d in [c] + lead ==> d == c || d in lead
  {
  }

  lemma Append(lead: string, mid: string, tail: string, c: char)
    ensures lead + mid + tail + [c] == lead + mid + (tail + [c])
    ensures forall d :: d in tail + [c] ==> d == c || d in tail
  {
  }

  /** Trimming takes away white space at both ends and nothing else. */
  lemma {:induction false} TrimSpaceKeepsTheMiddle(s: string) returns (lead: string, tail: string)
    ensures s == lead + TrimSpace(s) + tail
    ensures forall c :: c in lead || c in tail ==> IsSpace(c)
    decreases |s|
  {
    if s != "" && IsSpace(s[0]) {
      lead, tail := TrimSpaceKeepsTheMiddle(s[1..]);
      Prepend(s[0], lead, TrimSpace(s), tail);
      lead := [s[0]] + lead;
      assert s == [s[0]] + s[1..];
    } else if s != "" && IsSpace(s[|s| - 1]) {
      lead, tail := TrimSpaceKeepsTheMiddle(s[..|s| - 1]);
      Append(lead, TrimSpace(s), tail, s[|s| - 1]);
      tail := tail + [s[|s| - 1]];
      assert s == s[..|s| - 1] + [s[|s| - 1]];
    } else {
      lead, tail := "", "";
    }
  }

  /** White space by its usual characters. */
  lemma SpaceCharacters(c: char)
    ensures c in " \t\n\r" ==> IsSpace(c)
    ensures '!' <= c <= '~' ==> !IsSpace(c)
  {
  }

  function AsStr(v: PDU): string {
    if v.text.Some? then TrimSpace(v.text.value) else ""
  }

  /** The low 64 bits as a signed number. */
  function AsInt(v: PDU): (n: int)
    ensures v.number.Some? && -TWO_63 <= v.number.value < TWO_63 ==> n == v.number.value
  {
    if v.number.Some? then Wrap64(v.number.value) else 0
  }

  /** The low 64 bits of the magnitude. */
  function AsUint(v: PDU): (n: int)
    ensures 0 <= n < TWO_64
    ensures v.number.Some? && 0 <= v.number.value < TWO_64 ==> n == v.number.value
  {
    if v.number.None? then 0
    else (if v.number.value < 0 then -v.number.value else v.number.value) % TWO_64
  }

  /** The three readings of a variable. */
  datatype Cell = Cell(str: string, int64: int, uint64: int)

  function Decode(v: PDU): Cell {
    Cell(AsStr(v), AsInt(v), AsUint(v))
  }

  // ------------------------------------------------------------------ cells: what a walk says

  type Cells = map<(int, int), Cell>

  /** Reads (column, index) off a variable, None when it does not belong to the table entry. */
  type Parser = PDU -> Option<(int, int)>

  function IfCell(v: PDU): Option<(int, int)> {
    ParseCell(v.name, IF_ENTRY)
  }

  function IfXCell(v: PDU): Option<(int, int)> {
    ParseCell(v.name, IFX_ENTRY)
  }

  /** The cells of a walk of a table; a later variable for the same cell wins. */
  function CellsOf(pdus: seq<PDU>, parse: Parser): Cells {
    if pdus == [] then map[]
    else
      var (cells, v) := (CellsOf(pdus[..|pdus| - 1], parse), pdus[|pdus| - 1]);
      var at := parse(v);
      if at.Some? then cells[at.value := Decode(v)] else cells
  }

  function Indices(cells: Cells): set<int> {
    set k | k in cells :: k.1
  }

  function Text(cells: Cells, col: int, idx: int): string {
    if (col, idx) in cells then cells[(col, idx)].str else ""
  }

  function Int(cells: Cells, col: int, idx: int): int {
    if (col, idx) in cells then cells[(col, idx)].int64 else 0
  }

  function Uint(cells: Cells, col: int, idx: int): int {
    if (col, idx) in cells then cells[(col, idx)].uint64 else 0
  }

  function MaybeUint(cells: Cells, col: int, idx: int): Option<int> {
    if (col, idx) in cells then Some(cells[(col, idx)].uint64) else None
  }

  /**
   * The interface that the cells of both tables describe: ifName or else ifDescr; ifHighSpeed or
   * else ifSpeed in whole megabits; a 64-bit counter, whatever its value, before the 32-bit one.
   */
  ghost predicate Describes(f: SNMPInterface, idx: int, cells: Cells, xcells: Cells) {
    && f.ifIndex == idx
    && f.name == (if Text(xcells, 1, idx) != "" then Text(xcells, 1, idx) else Text(cells, 2, idx))
    && f.alias == Text(xcells, 18, idx)
    && f.ifType == Int(cells, 3, idx)
    && f.speedMbps == (if Int(xcells, 15, idx) > 0 then Int(xcells, 15, idx)
                       else TruncDiv(Int(cells, 5, idx), 1_000_000))
    && f.adminStatus == Int(cells, 7, idx)
    && f.operStatus == Int(cells, 8, idx)
    && f.inOctets == (if (6, idx) in xcells then Uint(xcells, 6, idx) else Uint(cells, 10, idx))
    && f.outOctets == (if (10, idx) in xcells then Uint(xcells, 10, idx) else Uint(cells, 16, idx))
    && f.inErrors == Int(cells, 14, idx)
    && f.outErrors == Int(cells, 20, idx)
  }

  ghost predicate Ascending(s: seq<int>) {
    forall i, j :: 0 <= i < j < |s| ==> s[i] < s[j]
  }

  function IndexList(rows: seq<SNMPInterface>): seq<int> {
    seq(|rows|, i requires 0 <= i < |rows| => rows[i].ifIndex)
  }

  /** l lists, strictly ascending, the 512 smallest of all, or all when there are fewer. */
  ghost predicate IsListing(l: seq<int>, all: set<int>) {
    && Ascending(l)
    && |l| <= 512
    && (forall x :: x in l ==> x in all)
    && (forall x :: x in all && x !in l ==> |l| == 512 && forall k :: 0 <= k < |l| ==> l[k] < x)
  }

  /**
   * out is the joined table: strictly ascending, one described row for each of the 512 smallest
   * indices of either walk, or for all of them when there are fewer.
   */
  ghost predicate IsTable(out: seq<SNMPInterface>, cells: Cells, xcells: Cells) {
    && IsListing(IndexList(out), Indices(cells) + Indices(xcells))
    && (forall k :: 0 <= k < |out| ==> Describes(out[k], out[k].ifIndex, cells, xcells))
  }

  // ------------------------------------------------------------------ the code

  function BlankRow(idx: int): Row {
    Row(SNMPInterface(idx, "", "", 0, 0, 0, 0, 0, 0, 0, 0), "", 0, 0, None, None)
  }

  function HandleIf(r: Row, col: int, v: Cell): Row {
    match col
    case 2 => r.(descr := v.str)
    case 3 => r.(iface := r.iface.(ifType := v.int64))
    case 5 => r.(spdBps := v.int64)
    case 7 => r.(iface := r.iface.(adminStatus := v.int64))
    case 8 => r.(iface := r.iface.(operStatus := v.int64))
    case 10 => r.(iface := r.iface.(inOctets := v.uint64))
    case 14 => r.(iface := r.iface.(inErrors := v.int64))
    case 16 => r.(iface := r.iface.(outOctets := v.uint64))
    case 20 => r.(iface := r.iface.(outErrors := v.int64))
    case _ => r
  }

  function HandleIfX(r: Row, col: int, v: Cell): Row {
    match col
    case 1 => r.(iface := r.iface.(name := v.str))
    case 6 => r.(hcIn := Some(v.uint64))
    case 10 => r.(hcOut := Some(v.uint64))
    case 15 => r.(spdMbps := v.int64)
    case 18 => r.(iface := r.iface.(alias := v.str))
    case _ => r
  }

  function Get(rows: map<int, Row>, idx: int): Row {
    if idx in rows then rows[idx] else BlankRow(idx)
  }

  function Dispatched(rows: map<int, Row>, pdus: seq<PDU>, parse: Parser,
                      handle: (Row, int, Cell) -> Row): map<int, Row> {
    if pdus == [] then rows
    else
      var (rows', v) := (Dispatched(rows, pdus[..|pdus| - 1], parse, handle), pdus[|pdus| - 1]);
      var at := parse(v);
      if at.Some? then rows'[at.value.1 := handle(Get(rows', at.value.1), at.value.0, Decode(v))] else rows'
  }

  method Dispatch(rows: map<int, Row>, pdus: seq<PDU>, parse: Parser, handle: (Row, int, Cell) -> Row)
    returns (updated: map<int, Row>)
    ensures updated == Dispatched(rows, pdus, parse, handle)
  {
    updated := rows;
    for i := 0 to |pdus|
      invariant updated == Dispatched(rows, pdus[..i], parse, handle)
    {
      assert pdus[..i + 1][..i] == pdus[..i];
      var at := parse(pdus[i]);
      if at.Some? {
        var (col, idx) := at.value;
        updated := updated[idx := handle(Get(updated, idx), col, Decode(pdus[i]))];
      }
    }
    assert pdus[..|pdus|] == pdus;
  }

  function Insert(s: seq<int>, x: int): seq<int> {
    if s == [] || x < s[0] then [x] + s else [s[0]] + Insert(s[1..], x)
  }

  lemma {:induction false} InsertSorts(s: seq<int>, x: int)
    requires Ascending(s) && x !in s
    ensures Ascending(Insert(s, x))
    ensures forall y :: y in Insert(s, x) <==> y in s || y == x
  {
    if s != [] && x >= s[0] {
      InsertSorts(s[1..], x);
      assert s == [s[0]] + s[1..];
      var t := Insert(s[1..], x);
      forall j | 0 <= j < |t| ensures s[0] < t[j] {
        assert t[j] in t;
      }
    }
  }

  /** The keys of the row map, collected and sorted. */
  method SortedKeys(keys: set<int>) returns (idxs: seq<int>)
    ensures Ascending(idxs)
    ensures forall x :: x in idxs <==> x in keys
  {
    idxs := [];
    var todo := keys;
    while todo != {}
      invariant todo <= keys && Ascending(idxs)
      invariant forall x :: x in idxs <==> x in keys - todo
    {
      var x := Pick(todo);
      InsertSorts(idxs, x);
      idxs := Insert(idxs, x);
      todo := todo - {x};
    }
  }

  /** The last touches to a row before it is reported. */
  function Finished(r: Row): SNMPInterface {
    r.iface.(
      name := if r.iface.name == "" then r.descr else r.iface.name,
      speedMbps := if r.spdMbps > 0 then r.spdMbps else TruncDiv(r.spdBps, 1_000_000),
      inOctets := if r.hcIn.Some? then r.hcIn.value else r.iface.inOctets,
      outOctets := if r.hcOut.Some? then r.hcOut.value else r.iface.outOctets)
  }

  /** The rows of the given indices, in that order. */
  method RowsFor(rows: map<int, Row>, idxs: seq<int>) returns (list: seq<SNMPInterface>)
    requires forall k :: 0 <= k < |idxs| ==> idxs[k] in rows
    ensures |list| == |idxs| && forall k :: 0 <= k < |list| ==> list[k] == Finished(rows[idxs[k]])
  {
    list := [];
    for i := 0 to |idxs|
      invariant |list| == i && forall k :: 0 <= k < i ==> list[k] == Finished(rows[idxs[k]])
    {
      list := list + [Finished(rows[idxs[i]])];
    }
  }

  /** Sorts and caps the indices and reports the rows in that order. */
  method Report(rows: map<int, Row>) returns (list: seq<SNMPInterface>)
    requires forall idx :: idx in rows ==> rows[idx].iface.ifIndex == idx
    ensures IsListing(IndexList(list), rows.Keys)
    ensures forall k :: 0 <= k < |list| ==> list[k].ifIndex in rows && list[k] == Finished(rows[list[k].ifIndex])
  {
    var idxs := SortedKeys(rows.Keys);
    ListingOfSorted(idxs, rows.Keys);
    if |idxs| > MAX_INTERFACES {
      idxs := idxs[..MAX_INTERFACES];
    }
    assert forall k :: 0 <= k < |idxs| ==> idxs[k] in idxs;
    list := RowsFor(rows, idxs);
    assert forall k :: 0 <= k < |list| ==> list[k].ifIndex == idxs[k];
    assert IndexList(list) == idxs;
  }

  /** None stands for a failed walk; a failed ifXTable walk is tolerated. */
  method CollectInterfaces(walk: Option<seq<PDU>>, xwalk: Option<seq<PDU>>) returns (out: Option<seq<SNMPInterface>>)
    ensures out.None? <==> walk.None?
    ensures out.Some? ==>
              IsTable(out.value, CellsOf(walk.value, IfCell),
                      if xwalk.Some? then CellsOf(xwalk.value, IfXCell) else map[])
  {
    if walk.None? {
      return None;
    }
    ghost var cells := CellsOf(walk.value, IfCell);
    ghost var xcells: Cells := if xwalk.Some? then CellsOf(xwalk.value, IfXCell) else map[];
    var rows := Dispatch(map[], walk.value, IfCell, HandleIf);
    IfRowsAreCells(walk.value);
    if xwalk.Some? {
      ghost var rows0 := rows;
      rows := Dispatch(rows, xwalk.value, IfXCell, HandleIfX);
      IfXRowsAreCells(rows0, cells, xwalk.value);
    }
    assert RowsSay(rows, cells, xcells);
    var list := Report(rows);
    forall k | 0 <= k < |list| ensures Describes(list[k], list[k].ifIndex, cells, xcells) {
      FinishedDescribes(rows[list[k].ifIndex], list[k].ifIndex, cells, xcells);
    }
    out := Some(list);
  }

  lemma ListingOfSorted(s: seq<int>, all: set<int>)
    requires Ascending(s) && forall x :: x in s <==> x in all
    ensures IsListing(if |s| > MAX_INTERFACES then s[..MAX_INTERFACES] else s, all)
  {
    var l := if |s| > MAX_INTERFACES then s[..MAX_INTERFACES] else s;
    assert forall k :: 0 <= k < |l| ==> s[k] == l[k] && l[k] in l;
    forall x | x in all && x !in l ensures |l| == MAX_INTERFACES && forall k :: 0 <= k < |l| ==> l[k] < x {
      var j :| 0 <= j < |s| && s[j] == x;
    }
  }

  // ------------------------------------------------------------------ rows and cells agree

  /** The row holds what the cells say, every field on its own. */
  ghost predicate RowSays(r: Row, idx: int, cells: Cells, xcells: Cells) {
    && r == Row(
         SNMPInterface(idx, Text(xcells, 1, idx), Text(xcells, 18, idx), Int(cells, 3, idx), 0,
                       Int(cells, 7, idx), Int(cells, 8, idx), Uint(cells, 10, idx), Uint(cells, 16, idx),
                       Int(cells, 14, idx), Int(cells, 20, idx)),
         Text(cells, 2, idx), Int(cells, 5, idx), Int(xcells, 15, idx),
         MaybeUint(xcells, 6, idx), MaybeUint(xcells, 10, idx))
  }

  lemma FinishedDescribes(r: Row, idx: int, cells: Cells, xcells: Cells)
    requires RowSays(r, idx, cells, xcells)
    ensures Describes(Finished(r), idx, cells, xcells)
  {
  }

  ghost predicate RowsSay(rows: map<int, Row>, cells: Cells, xcells: Cells) {
    && rows.Keys == Indices(cells) + Indices(xcells)
    && forall idx :: idx in rows ==> RowSays(rows[idx], idx, cells, xcells)
  }

  lemma BlankSays(idx: int, cells: Cells, xcells: Cells)
    requires idx !in Indices(cells) && idx !in Indices(xcells)
    ensures RowSays(BlankRow(idx), idx, cells, xcells)
  {
    assert forall col :: (col, idx) in cells ==> (col, idx).1 in Indices(cells);
    assert forall col :: (col, idx) in xcells ==> (col, idx).1 in Indices(xcells);
  }

  lemma IndicesGrow(cells: Cells, col: int, idx: int, v: Cell)
    ensures Indices(cells[(col, idx) := v]) == Indices(cells) + {idx}
  {
    var more := cells[(col, idx) := v];
    forall i | i in Indices(cells) + {idx} ensures i in Indices(more) {
      if i == idx {
        assert (col, idx) in more;
      } else {
        var k :| k in cells && k.1 == i;
        assert k in more;
      }
    }
  }

  lemma RowGains(r: Row, idx: int, cells: Cells, xcells: Cells, col: int, v: Cell)
    requires RowSays(r, idx, cells, xcells)
    ensures RowSays(HandleIf(r, col, v), idx, cells[(col, idx) := v], xcells)
  {
  }

  lemma RowGainsX(r: Row, idx: int, cells: Cells, xcells: Cells, col: int, v: Cell)
    requires RowSays(r, idx, cells, xcells)
    ensures RowSays(HandleIfX(r, col, v), idx, cells, xcells[(col, idx) := v])
  {
  }

  lemma OtherRowKeeps(r: Row, i: int, cells: Cells, xcells: Cells, col: int, idx: int, v: Cell)
    requires RowSays(r, i, cells, xcells) && i != idx
    ensures RowSays(r, i, cells[(col, idx) := v], xcells)
    ensures RowSays(r, i, cells, xcells[(col, idx) := v])
  {
  }

  lemma RowReplaced(rows: map<int, Row>, idx: int, r: Row, cells: Cells, xcells: Cells)
    requires rows.Keys + {idx} == Indices(cells) + Indices(xcells) && RowSays(r, idx, cells, xcells)
    requires forall i :: i in rows && i != idx ==> RowSays(rows[i], i, cells, xcells)
    ensures RowsSay(rows[idx := r], cells, xcells)
  {
  }

  lemma CellLands(rows: map<int, Row>, cells: Cells, xcells: Cells, col: int, idx: int, v: Cell)
    requires RowsSay(rows, cells, xcells)
    ensures RowsSay(rows[idx := HandleIf(Get(rows, idx), col, v)], cells[(col, idx) := v], xcells)
  {
    IndicesGrow(cells, col, idx, v);
    if idx !in rows { BlankSays(idx, cells, xcells); }
    RowGains(Get(rows, idx), idx, cells, xcells, col, v);
    forall i | i in rows && i != idx ensures RowSays(rows[i], i, cells[(col, idx) := v], xcells) {
      OtherRowKeeps(rows[i], i, cells, xcells, col, idx, v);
    }
    RowReplaced(rows, idx, HandleIf(Get(rows, idx), col, v), cells[(col, idx) := v], xcells);
  }

  lemma XCellLands(rows: map<int, Row>, cells: Cells, xcells: Cells, col: int, idx: int, v: Cell)
    requires RowsSay(rows, cells, xcells)
    ensures RowsSay(rows[idx := HandleIfX(Get(rows, idx), col, v)], cells, xcells[(col, idx) := v])
  {
    IndicesGrow(xcells, col, idx, v);
    if idx !in rows { BlankSays(idx, cells, xcells); }
    RowGainsX(Get(rows, idx), idx, cells, xcells, col, v);
    forall i | i in rows && i != idx ensures RowSays(rows[i], i, cells, xcells[(col, idx) := v]) {
      OtherRowKeeps(rows[i], i, cells, xcells, col, idx, v);
    }
    RowReplaced(rows, idx, HandleIfX(Get(rows, idx), col, v), cells, xcells[(col, idx) := v]);
  }

  lemma {:induction false} IfRowsAreCells(pdus: seq<PDU>)
    ensures RowsSay(Dispatched(map[], pdus, IfCell, HandleIf), CellsOf(pdus, IfCell), map[])
  {
    if pdus != [] {
      var (front, v) := (pdus[..|pdus| - 1], pdus[|pdus| - 1]);
      IfRowsAreCells(front);
      var at := IfCell(v);
      if at.Some? {
        CellLands(Dispatched(map[], front, IfCell, HandleIf), CellsOf(front, IfCell), map[],
                  at.value.0, at.value.1, Decode(v));
      }
    }
  }

  lemma {:induction false} IfXRowsAreCells(rows: map<int, Row>, cells: Cells, pdus: seq<PDU>)
    requires RowsSay(rows, cells, map[])
    ensures RowsSay(Dispatched(rows, pdus, IfXCell, HandleIfX), cells, CellsOf(pdus, IfXCell))
  {
    if pdus != [] {
      var (front, v) := (pdus[..|pdus| - 1], pdus[|pdus| - 1]);
      IfXRowsAreCells(rows, cells, front);
      var at := IfXCell(v);
      if at.Some? {
        XCellLands(Dispatched(rows, front, IfXCell, HandleIfX), cells, CellsOf(front, IfXCell),
                   at.value.0, at.value.1, Decode(v));
      }
    }
  }

  // ------------------------------------------------------------------ the table is determined

  /** With equal starts, the next element of b is not below the next one of a, and a has one if b has. */
  lemma NoSmaller(a: seq<int>, b: seq<int>, all: set<int>, n: nat)
    requires IsListing(a, all) && IsListing(b, all)
    requires n <= |a| && n < |b| && a[..n] == b[..n]
    ensures n < |a| && a[n] <= b[n]
  {
    var x := b[n];
    assert x in b;
    assert forall k :: 0 <= k < n ==> a[k] == a[..n][k] == b[k] < x;
    if x in a {
      var j :| 0 <= j < |a| && a[j] == x;
    }
  }

  lemma {:induction false} ListingsAgree(a: seq<int>, b: seq<int>, all: set<int>, n: nat)
    requires IsListing(a, all) && IsListing(b, all) && n <= |a| && n <= |b|
    ensures a[..n] == b[..n]
  {
    if n > 0 {
      ListingsAgree(a, b, all, n - 1);
      NoSmaller(a, b, all, n - 1);
      NoSmaller(b, a, all, n - 1);
    }
  }

  lemma ListingIsUnique(a: seq<int>, b: seq<int>, all: set<int>)
    requires IsListing(a, all) && IsListing(b, all)
    ensures a == b
  {
    var n := if |a| < |b| then |a| else |b|;
    ListingsAgree(a, b, all, n);
    if n < |b| { NoSmaller(a, b, all, n); }
    if n < |a| { NoSmaller(b, a, all, n); }
  }

  /** Two tables for the same cells are equal: the contract of CollectInterfaces fixes its result. */
  lemma TableIsUnique(a: seq<SNMPInterface>, b: seq<SNMPInterface>, cells: Cells, xcells: Cells)
    requires IsTable(a, cells, xcells) && IsTable(b, cells, xcells)
    ensures a == b
  {
    var (la, lb) := (IndexList(a), IndexList(b));
    ListingIsUnique(la, lb, Indices(cells) + Indices(xcells));
    forall k | 0 <= k < |a| ensures a[k] == b[k] {
      assert la[k] == lb[k];
    }
  }

  // ------------------------------------------------------------------ order does not matter

  /** No two variables of the walk are for the same cell. */
  ghost predicate DistinctCells(pdus: seq<PDU>, parse: Parser) {
    forall i, j :: 0 <= i < j < |pdus| && parse(pdus[i]).Some? ==>
      parse(pdus[i]) != parse(pdus[j])
  }

  /** pdus[k] is the last variable of the walk for the cell. */
  ghost predicate LastFor(pdus: seq<PDU>, parse: Parser, k: int, at: (int, int)) {
    && 0 <= k < |pdus| && parse(pdus[k]) == Some(at)
    && forall j :: k < j < |pdus| ==> parse(pdus[j]) != Some(at)
  }

  /** A cell of the walk is the last variable with that column and index, and every variable counts. */
  lemma {:induction false} CellsAreLast(pdus: seq<PDU>, parse: Parser, at: (int, int))
    ensures at in CellsOf(pdus, parse) ==>
              exists k :: LastFor(pdus, parse, k, at) && Decode(pdus[k]) == CellsOf(pdus, parse)[at]
    ensures at !in CellsOf(pdus, parse) ==> forall k :: 0 <= k < |pdus| ==> parse(pdus[k]) != Some(at)
  {
    if pdus != [] {
      var n := |pdus| - 1;
      var front := pdus[..n];
      CellsAreLast(front, parse, at);
      if parse(pdus[n]) == Some(at) {
        assert LastFor(pdus, parse, n, at);
      } else if at in CellsOf(front, parse) {
        var k :| LastFor(front, parse, k, at) && Decode(front[k]) == CellsOf(front, parse)[at];
        assert LastFor(pdus, parse, k, at);
      }
    }
  }

  lemma MemberCounts(p: seq<PDU>, parse: Parser, v: PDU, at: (int, int))
    requires v in p && parse(v) == Some(at)
    ensures at in CellsOf(p, parse)
  {
    CellsAreLast(p, parse, at);
  }

  lemma CellOfMember(p: seq<PDU>, parse: Parser, v: PDU, at: (int, int))
    requires DistinctCells(p, parse) && v in p && parse(v) == Some(at)
    ensures at in CellsOf(p, parse) && CellsOf(p, parse)[at] == Decode(v)
  {
    CellsAreLast(p, parse, at);
    var i :| 0 <= i < |p| && p[i] == v;
    var k :| LastFor(p, parse, k, at) && Decode(p[k]) == CellsOf(p, parse)[at];
  }

  lemma SameCell(p: seq<PDU>, q: seq<PDU>, parse: Parser, at: (int, int))
    requires DistinctCells(p, parse) && multiset(p) == multiset(q)
    ensures at in CellsOf(p, parse) <==> at in CellsOf(q, parse)
    ensures at in CellsOf(p, parse) ==> CellsOf(p, parse)[at] == CellsOf(q, parse)[at]
  {
    CellsAreLast(p, parse, at);
    CellsAreLast(q, parse, at);
    if at in CellsOf(q, parse) {
      var k :| LastFor(q, parse, k, at) && Decode(q[k]) == CellsOf(q, parse)[at];
      assert q[k] in multiset(p);
      CellOfMember(p, parse, q[k], at);
    }
    if at in CellsOf(p, parse) {
      var k :| LastFor(p, parse, k, at) && Decode(p[k]) == CellsOf(p, parse)[at];
      assert p[k] in multiset(q);
      MemberCounts(q, parse, p[k], at);
    }
  }

  /** Permuting a walk in which no cell repeats changes no cell, hence not the table. */
  lemma PermutedWalkSameTable(p: seq<PDU>, q: seq<PDU>, x: seq<PDU>, y: seq<PDU>,
                              out: seq<SNMPInterface>, out': seq<SNMPInterface>)
    requires DistinctCells(p, IfCell) && multiset(p) == multiset(q)
    requires DistinctCells(x, IfXCell) && multiset(x) == multiset(y)
    requires IsTable(out, CellsOf(p, IfCell), CellsOf(x, IfXCell))
    requires IsTable(out', CellsOf(q, IfCell), CellsOf(y, IfXCell))
    ensures out == out'
  {
    assert CellsOf(p, IfCell) == CellsOf(q, IfCell) by {
      forall at: (int, int)
        ensures at in CellsOf(p, IfCell) <==> at in CellsOf(q, IfCell)
        ensures at in CellsOf(p, IfCell) ==> CellsOf(p, IfCell)[at] == CellsOf(q, IfCell)[at]
      {
        SameCell(p, q, IfCell, at);
      }
    }
    assert CellsOf(x, IfXCell) == CellsOf(y, IfXCell) by {
      forall at: (int, int)
        ensures at in CellsOf(x, IfXCell) <==> at in CellsOf(y, IfXCell)
        ensures at in CellsOf(x, IfXCell) ==> CellsOf(x, IfXCell)[at] == CellsOf(y, IfXCell)[at]
      {
        SameCell(x, y, IfXCell, at);
      }
    }
    TableIsUnique(out, out', CellsOf(p, IfCell), CellsOf(x, IfXCell));
  }

  // ------------------------------------------------------------------ from the variables of a walk to the rows

  /** t is s without the white space at its ends. */
  ghost predicate IsTrim(s: string, lead: string, t: string, tail: string) {
    && s == lead + t + tail
    && (forall c :: c in lead || c in tail ==> IsSpace(c))
    && (t != "" ==> !IsSpace(t[0]) && !IsSpace(t[|t| - 1]))
  }

  /** The text of a cell is the text of the variable, trimmed; "" when it has none. */
  lemma DecodesText(v: PDU) returns (lead: string, tail: string)
    ensures v.text.Some? ==> IsTrim(v.text.value, lead, Decode(v).str, tail)
    ensures v.text.None? ==> Decode(v).str == ""
  {
    lead, tail := "", "";
    if v.text.Some? {
      lead, tail := TrimSpaceKeepsTheMiddle(v.text.value);
    }
  }

  /**
   * The numbers of a cell are the low 64 bits of the number of the variable, signed, and of its
   * magnitude, unsigned; 0 when it has none.
   */
  lemma DecodesNumber(v: PDU)
    ensures v.number.None? ==> Decode(v).int64 == 0 && Decode(v).uint64 == 0
    ensures v.number.Some? ==>
              var (n, i, u) := (v.number.value, Decode(v).int64, Decode(v).uint64);
              && -0x8000_0000_0000_0000 <= i < 0x8000_0000_0000_0000 && (i - n) % 0x1_0000_0000_0000_0000 == 0
              && 0 <= u < 0x1_0000_0000_0000_0000
              && ((if n >= 0 then u - n else u + n) % 0x1_0000_0000_0000_0000 == 0)
  {
    if v.number.Some? {
      var n := v.number.value;
      var m := if n < 0 then -n else n;
      assert m == m / TWO_64 * TWO_64 + m % TWO_64;
      MultipleOf(m % TWO_64 - m, -(m / TWO_64));
    }
  }

  lemma MultipleOf(x: int, q: int)
    requires x == q * TWO_64
    ensures x % TWO_64 == 0
  {
  }

  /** The name of column col and row idx below an entry. */
  function CellName(entry: string, col: nat, idx: nat, dotted: bool): string {
    (if dotted then "." else "") + entry + Render(col) + "." + Render(idx)
  }

  lemma Regrouped(a: string, b: string, c: string, d: string, e: string)
    ensures a + b + c + d + e == a + (b + (c + d + e))
  {
  }

  lemma NameParses(entry: string, col: nat, idx: nat, dotted: bool)
    requires col < TWO_63 && idx < TWO_63 && entry != "" && entry[0] != '.'
    ensures ParseCell(CellName(entry + ".", col, idx, dotted), entry) == Some((col, idx))
  {
    ParseOfRendered(entry, col, idx, dotted);
    Regrouped(if dotted then "." else "", entry + ".", Render(col), ".", Render(idx));
  }

  /** Variable k gives the cell, and no later one does. */
  ghost predicate Gives(pdus: seq<PDU>, parse: Parser, k: nat, at: (int, int)) {
    k < |pdus| && parse(pdus[k]) == Some(at) && forall j :: k < j < |pdus| ==> parse(pdus[j]) != Some(at)
  }

  lemma GivenCell(pdus: seq<PDU>, parse: Parser, k: nat, at: (int, int))
    requires Gives(pdus, parse, k, at)
    ensures at in CellsOf(pdus, parse) && CellsOf(pdus, parse)[at] == Decode(pdus[k])
  {
    CellsAreLast(pdus, parse, at);
    var i :| LastFor(pdus, parse, i, at) && Decode(pdus[i]) == CellsOf(pdus, parse)[at];
    assert i == k;
  }

  /** In an ifTable walk the names below 1.3.6.1.2.1.2.2.1, in an ifXTable walk those below 1.3.6.1.2.1.31.1.1.1. */
  lemma NamesBelong(v: PDU, col: nat, idx: nat, dotted: bool)
    requires col < TWO_63 && idx < TWO_63
    ensures v.name == CellName("1.3.6.1.2.1.2.2.1.", col, idx, dotted) ==> IfCell(v) == Some((col, idx))
    ensures v.name == CellName("1.3.6.1.2.1.31.1.1.1.", col, idx, dotted) ==> IfXCell(v) == Some((col, idx))
  {
    NameParses("1.3.6.1.2.1.2.2.1", col, idx, dotted);
    NameParses("1.3.6.1.2.1.31.1.1.1", col, idx, dotted);
    assert "1.3.6.1.2.1.2.2.1" + "." == "1.3.6.1.2.1.2.2.1.";
    assert "1.3.6.1.2.1.31.1.1.1" + "." == "1.3.6.1.2.1.31.1.1.1.";
  }

  /** The last variable named for the column and row, and its text. */
  ghost predicate LastNamed(pdus: seq<PDU>, parse: Parser, k: nat, entry: string, col: nat, idx: nat, dotted: bool) {
    && k < |pdus| && pdus[k].name == CellName(entry, col, idx, dotted)
    && forall j :: k < j < |pdus| ==> parse(pdus[j]) != Some((col, idx))
  }

  /**
   * End to end: without an ifName, the row of an interface has as name the trimmed text of the last
   * variable 1.3.6.1.2.1.2.2.1.2.idx of the ifTable walk; and it has a row unless 512 others do.
   */
  lemma {:induction false} DescrIsName(walk: seq<PDU>, xwalk: seq<PDU>, out: seq<SNMPInterface>, k: nat, idx: nat,
                                       dotted: bool)
    returns (lead: string, tail: string)
    requires IsTable(out, CellsOf(walk, IfCell), CellsOf(xwalk, IfXCell)) && idx < TWO_63
    requires LastNamed(walk, IfCell, k, "1.3.6.1.2.1.2.2.1.", 2, idx, dotted) && walk[k].text.Some?
    requires forall j :: 0 <= j < |xwalk| ==> IfXCell(xwalk[j]) != Some((1, idx))
    ensures forall i :: 0 <= i < |out| && out[i].ifIndex == idx ==>
              IsTrim(walk[k].text.value, lead, out[i].name, tail)
    ensures |out| < 512 ==> exists i :: 0 <= i < |out| && out[i].ifIndex == idx
  {
    NamesBelong(walk[k], 2, idx, dotted);
    GivenCell(walk, IfCell, k, (2, idx));
    lead, tail := DecodesText(walk[k]);
    CellsAreLast(xwalk, IfXCell, (1, idx));
    IndexListed(out, CellsOf(walk, IfCell), CellsOf(xwalk, IfXCell), (2, idx));
  }

  lemma ListingHasAll(l: seq<int>, all: set<int>, x: int)
    requires IsListing(l, all) && x in all && |l| < 512
    ensures x in l
  {
  }

  lemma IndexListed(out: seq<SNMPInterface>, cells: Cells, xcells: Cells, at: (int, int))
    requires IsTable(out, cells, xcells) && (at in cells || at in xcells)
    ensures |out| < 512 ==> exists i :: 0 <= i < |out| && out[i].ifIndex == at.1
  {
    assert at in cells ==> at.1 in Indices(cells);
    assert at in xcells ==> at.1 in Indices(xcells);
    if |out| < 512 {
      ListingHasAll(IndexList(out), Indices(cells) + Indices(xcells), at.1);
      var i :| 0 <= i < |out| && IndexList(out)[i] == at.1;
      assert out[i].ifIndex == at.1;
    }
  }

  /** Likewise the trimmed text of 1.3.6.1.2.1.31.1.1.1.1.idx, unless it is empty, and the alias from column 18. */
  lemma {:induction false} IfNameIsName(walk: seq<PDU>, xwalk: seq<PDU>, out: seq<SNMPInterface>, k: nat, idx: nat,
                                        dotted: bool)
    returns (lead: string, t: string, tail: string)
    requires IsTable(out, CellsOf(walk, IfCell), CellsOf(xwalk, IfXCell)) && idx < TWO_63
    requires LastNamed(xwalk, IfXCell, k, "1.3.6.1.2.1.31.1.1.1.", 1, idx, dotted) && xwalk[k].text.Some?
    ensures IsTrim(xwalk[k].text.value, lead, t, tail)
    ensures forall i :: 0 <= i < |out| && out[i].ifIndex == idx && t != "" ==> out[i].name == t
    ensures |out| < 512 ==> exists i :: 0 <= i < |out| && out[i].ifIndex == idx
  {
    NamesBelong(xwalk[k], 1, idx, dotted);
    GivenCell(xwalk, IfXCell, k, (1, idx));
    lead, tail := DecodesText(xwalk[k]);
    t := Decode(xwalk[k]).str;
    IndexListed(out, CellsOf(walk, IfCell), CellsOf(xwalk, IfXCell), (1, idx));
  }

  lemma {:induction false} IfAliasIsAlias(walk: seq<PDU>, xwalk: seq<PDU>, out: seq<SNMPInterface>, k: nat, idx: nat,
                                          dotted: bool)
    returns (lead: string, tail: string)
    requires IsTable(out, CellsOf(walk, IfCell), CellsOf(xwalk, IfXCell)) && idx < TWO_63
    requires LastNamed(xwalk, IfXCell, k, "1.3.6.1.2.1.31.1.1.1.", 18, idx, dotted) && xwalk[k].text.Some?
    ensures forall i :: 0 <= i < |out| && out[i].ifIndex == idx ==>
              IsTrim(xwalk[k].text.value, lead, out[i].alias, tail)
  {
    NamesBelong(xwalk[k], 18, idx, dotted);
    GivenCell(xwalk, IfXCell, k, (18, idx));
    lead, tail := DecodesText(xwalk[k]);
  }
}
