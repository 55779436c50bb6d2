/** Reading column and row index out of the OID of a table cell. */
module Oids {
  import opened Prelude

  predicate IsDigit(c: char) { '0' <= c <= '9' }

  predicate AllDigits(s: string) { forall i :: 0 <= i < |s| ==> IsDigit(s[i]) }

  function DigitsValue(s: string): nat
    requires AllDigits(s)
  {
    if s == "" then 0 else DigitsValue(s[..|s| - 1]) * 10 + (s[|s| - 1] as int - '0' as int)
  }

  /** strconv.Atoi on a 64-bit platform: optional sign, at least one digit, value in range. */
  function Atoi(s: string): Option<int> {
    var negative := |s| > 0 && s[0] == '-';
    var digits := if |s| > 0 && (s[0] == '-' || s[0] == '+') then s[1..] else s;
    if digits == "" || !AllDigits(digits) then None
    else
      var magnitude: int := DigitsValue(digits);
      var n := if negative then -magnitude else magnitude;
      if -TWO_63 <= n < TWO_63 then Some(n) else None
  }

  function TrimPrefix(s: string, p: string): string {
    if p <= s then s[|p|..] else s
  }

  /** Position of the first dot, |s| when there is none. */
  function FirstDot(s: string): (i: nat)
    ensures i <= |s| && (i < |s| ==> s[i] == '.') && forall j :: 0 <= j < i ==> s[j] != '.'
  {
    if s == "" || s[0] == '.' then 0 else 1 + FirstDot(s[1..])
  }

  /** Column and index of what follows the entry in a name: two numbers around the first dot. */
  function SplitCell(rest: string): Option<(int, int)> {
    var dot := FirstDot(rest);
    if dot == |rest| then None
    else
      var (col, idx) := (Atoi(rest[..dot]), Atoi(rest[dot + 1..]));
      if col.None? || idx.None? then None else Some((col.value, idx.value))
  }

  /** (column, index) of a variable name below the given table entry, None when it is no such name. */
  function ParseCell(name: string, entry: string): Option<(int, int)> {
    var base := TrimPrefix(name, ".");
    var rest := TrimPrefix(base, entry + ".");
    if rest == base then None else SplitCell(rest)
  }

  // ------------------------------------------------------------------ round trip

  /** Decimal notation without leading zeros. */
  function Render(n: nat): (s: string)
    ensures s != "" && AllDigits(s)
  {
    var digit := [(n % 10 + '0' as int) as char];
    if n < 10 then digit else Render(n / 10) + digit
  }

  lemma {:induction false} RenderValue(n: nat)
    ensures DigitsValue(Render(n)) == n
  {
    if n >= 10 {
      RenderValue(n / 10);
      assert Render(n)[..|Render(n)| - 1] == Render(n / 10);
    } else {
      assert Render(n)[..0] == "";
    }
  }

  lemma AtoiOfRender(n: nat)
    requires n < TWO_63
    ensures Atoi(Render(n)) == Some(n)
  {
    RenderValue(n);
    assert IsDigit(Render(n)[0]);
  }

  lemma FirstDotAt(s: string, i: nat)
    requires i < |s| && s[i] == '.' && forall j :: 0 <= j < i ==> s[j] != '.'
    ensures FirstDot(s) == i
  {
  }

  lemma SplitOfRendered(col: nat, idx: nat)
    ensures var rest := Render(col) + "." + Render(idx);
            && FirstDot(rest) == |Render(col)| < |rest|
            && rest[..|Render(col)|] == Render(col)
            && rest[|Render(col)| + 1..] == Render(idx)
  {
    var rest := Render(col) + "." + Render(idx);
    forall j | 0 <= j < |Render(col)| ensures rest[j] != '.' {
      assert IsDigit(Render(col)[j]);
    }
    FirstDotAt(rest, |Render(col)|);
  }

  lemma BaseOfRendered(entry: string, rest: string, dotted: bool)
    requires entry != "" && entry[0] != '.'
    ensures var base := entry + "." + rest;
            && TrimPrefix((if dotted then "." else "") + base, ".") == base
            && TrimPrefix(base, entry + ".") == rest != base
  {
    var base := entry + "." + rest;
    assert base[0] == entry[0];
    assert ("." + base)[1..] == base;
    assert "" + base == base;
    assert base[|entry + "."|..] == rest;
  }

  /** The name a device gives to a cell is read back as that cell, with or without leading dot. */
  lemma ParseOfRendered(entry: string, col: nat, idx: nat, dotted: bool)
    requires col < TWO_63 && idx < TWO_63 && entry != "" && entry[0] != '.'
    ensures ParseCell((if dotted then "." else "") + (entry + "." + (Render(col) + "." + Render(idx))), entry)
         == Some((col, idx))
  {
    BaseOfRendered(entry, Render(col) + "." + Render(idx), dotted);
    SplitOfRendered(col, idx);
    AtoiOfRender(col);
    AtoiOfRender(idx);
  }

  /** Signs: a rendered number parses to itself after a plus and to its negative after a minus, within 64 bits. */
  lemma AtoiOfSigned(n: nat)
    ensures var minus: int := 0 - n; Atoi("-" + Render(n)) == if n <= TWO_63 then Some(minus) else None
    ensures Atoi("+" + Render(n)) == if n < TWO_63 then Some(n) else None
  {
    RenderValue(n);
    assert ("-" + Render(n))[1..] == Render(n) && ("+" + Render(n))[1..] == Render(n);
  }

  lemma JoinPrefix(p: string, s: string)
    requires p <= s
    ensures s == p + s[|p|..]
  {
  }

  lemma SplitAt(s: string, i: nat)
    requires i < |s| && s[i] == '.' && forall j :: 0 <= j < i ==> s[j] != '.'
    ensures s == s[..i] + ("." + s[i + 1..]) && '.' !in s[..i]
  {
  }

  lemma SplitCellParts(rest: string) returns (col: string, idx: string)
    requires SplitCell(rest).Some?
    ensures rest == col + ("." + idx) && '.' !in col
    ensures Atoi(col) == Some(SplitCell(rest).value.0) && Atoi(idx) == Some(SplitCell(rest).value.1)
  {
    var dot := FirstDot(rest);
    col, idx := rest[..dot], rest[dot + 1..];
    SplitAt(rest, dot);
  }

  /** Only names below the entry are cells: after it come a column, which has no dot, and an index. */
  lemma ParseOnlyCells(name: string, entry: string) returns (col: string, idx: string)
    requires ParseCell(name, entry).Some?
    ensures TrimPrefix(name, ".") == entry + "." + (col + ("." + idx)) && '.' !in col
    ensures Atoi(col) == Some(ParseCell(name, entry).value.0) && Atoi(idx) == Some(ParseCell(name, entry).value.1)
  {
    var base := TrimPrefix(name, ".");
    col, idx := SplitCellParts(TrimPrefix(base, entry + "."));
    JoinPrefix(entry + ".", base);
  }
}
