/**
 * The parenthesised list of plugin names that the job query excludes with
 * `l.plugin NOT IN (...)`, as the backend builds it, and how SQL reads such
 * a list back: single-quoted literals separated by ", ", where a doubled
 * quote inside a literal stands for one quote character.
 */
module SqlList {
  import opened Tables

  const Quote: char := '\''

  /** One plugin name as a quoted SQL literal, with no escaping. */
  function Quoted(item: string): string
  {
    [Quote] + item + [Quote]
  }

  predicate QuoteFree(item: string)
  {
    Quote !in item
  }

  // ---------------------------------------------------------------------------
  // Reading a list back

  /** The names a `(...)` list of SQL string literals denotes, or None when it is malformed. */
  function ParseList(s: string): Option<seq<string>>
  {
    if |s| >= 1 && s[0] == '(' then ParseItems(s[1..]) else None
  }

  /** After the opening parenthesis: the empty list, or a first literal. */
  function ParseItems(s: string): Option<seq<string>>
    decreases |s|
  {
    if s == ")" then Some([])
    else if |s| >= 1 && s[0] == Quote then ParseLiteral(s[1..], "")
    else None
  }

  /** Inside a literal whose characters so far are `acc`. */
  function ParseLiteral(s: string, acc: string): Option<seq<string>>
    decreases |s|
  {
    if s == [] then None
    else if s[0] == Quote then
      if |s| >= 2 && s[1] == Quote then ParseLiteral(s[2..], acc + [Quote])
      else
        match ParseRest(s[1..])
        case None => None
        case Some(items) => Some([acc] + items)
    else ParseLiteral(s[1..], acc + [s[0]])
  }

  /** After a closing quote: the end of the list, or ", " and the next literal. */
  function ParseRest(s: string): Option<seq<string>>
    decreases |s|
  {
    if s == ")" then Some([])
    else if |s| >= 3 && s[..3] == [',', ' ', Quote] then ParseLiteral(s[3..], "")
    else None
  }

  // ---------------------------------------------------------------------------
  // The list as the backend builds it

  /** The literals concatenated with nothing between them: the loop never advances `i`. */
  function Concatenated(occ: seq<string>): string
  {
    if occ == [] then "" else Concatenated(occ[..|occ| - 1]) + Quoted(occ[|occ| - 1])
  }

  function AsWrittenList(occ: seq<string>): string
  {
    "(" + Concatenated(occ) + ")"
  }

  /**
   * The loop of `getJob` that builds the list: `i` starts at 0 and is never
   * incremented, so the ", " separator is never written.
   */
  method BuildNotInList(occ: seq<string>) returns (cmd: string)
    ensures cmd == AsWrittenList(occ)
  {
    cmd := "(";
    var i := 0;
    var k := 0;
    while k < |occ|
      invariant 0 <= k <= |occ|
      invariant i == 0
      invariant cmd == "(" + Concatenated(occ[..k])
    {
      if i != 0 {
        cmd := cmd + ", ";
      }
      cmd := cmd + Quoted(occ[k]);
      assert occ[..k + 1][..k] == occ[..k];
      k := k + 1;
    }
    assert occ[..|occ|] == occ;
    cmd := cmd + ")";
  }

  /** The list with the separators the loop means to write. */
  function Separated(occ: seq<string>): string
  {
    if occ == [] then ""
    else if |occ| == 1 then Quoted(occ[0])
    else Quoted(occ[0]) + ", " + Separated(occ[1..])
  }

  function IntendedList(occ: seq<string>): string
  {
    "(" + Separated(occ) + ")"
  }

  // ---------------------------------------------------------------------------
  // What SQL reads

  /** The characters of a quote-free name are read one by one into the literal. */
  lemma {:induction false} ParseQuoteFree(x: string, tail: string, acc: string)
    requires QuoteFree(x)
    ensures ParseLiteral(x + tail, acc) == ParseLiteral(tail, acc + x)
    decreases |x|
  {
    if x == [] {
      assert x + tail == tail && acc + x == acc;
    } else {
      var s := x + tail;
      assert s[0] == x[0] && x[0] in x;
      assert s[1..] == x[1..] + tail;
      assert ParseLiteral(s, acc) == ParseLiteral(s[1..], acc + [x[0]]);
      ParseQuoteFree(x[1..], tail, acc + [x[0]]);
      assert acc + [x[0]] + x[1..] == acc + x;
    }
  }

  /** What follows the first name's closing quote in the corrected list. */
  function Tail(occ: seq<string>): string
    requires occ != []
  {
    if |occ| == 1 then ")" else ", " + Separated(occ[1..]) + ")"
  }

  /** A closing quote not followed by another quote ends the literal. */
  lemma {:induction false} CloseLiteral(t: string, acc: string)
    requires t != [] && t[0] != Quote
    ensures ParseRest(t).None? ==> ParseLiteral([Quote] + t, acc).None?
    ensures ParseRest(t).Some? ==> ParseLiteral([Quote] + t, acc) == Some([acc] + ParseRest(t).value)
  {
    assert ([Quote] + t)[1..] == t;
  }

  /** The corrected list from a non-empty position on, closing parenthesis included. */
  lemma {:induction false} SeparatedTail(r: seq<string>)
    requires r != []
    ensures Separated(r) + ")" == [Quote] + (r[0] + ([Quote] + Tail(r)))
  {
  }

  /** Reading the corrected list of quote-free names from inside its first literal. */
  lemma {:induction false} ParseSeparated(occ: seq<string>, acc: string)
    requires occ != [] && forall k :: 0 <= k < |occ| ==> QuoteFree(occ[k])
    ensures ParseLiteral(occ[0] + ([Quote] + Tail(occ)), acc) == Some([acc + occ[0]] + occ[1..])
    decreases |occ|
  {
    var x, t := occ[0], Tail(occ);
    ParseQuoteFree(x, [Quote] + t, acc);
    CloseLiteral(t, acc + x);
    if |occ| == 1 {
      assert ParseRest(t) == Some([]);
      assert occ[1..] == [];
    } else {
      var r := occ[1..];
      var u := r[0] + ([Quote] + Tail(r));
      assert t == ", " + ([Quote] + u) by {
        SeparatedTail(r);
      }
      assert t[..3] == [',', ' ', Quote] && t[3..] == u;
      ParseSeparated(r, "");
      assert "" + r[0] == r[0];
      assert [r[0]] + r[1..] == r;
      assert ParseRest(t) == ParseLiteral(t[3..], "");
    }
  }

  /** The corrected list reads back as exactly the names it was built from. */
  lemma {:induction false} IntendedRoundTrip(occ: seq<string>)
    requires forall k :: 0 <= k < |occ| ==> QuoteFree(occ[k])
    ensures ParseList(IntendedList(occ)) == Some(occ)
  {
    var s := IntendedList(occ);
    if occ == [] {
      assert s[1..] == ")";
    } else {
      var u := occ[0] + ([Quote] + Tail(occ));
      assert s == "(" + ([Quote] + u) by {
        SeparatedTail(occ);
      }
      assert s[1..][1..] == u;
      ParseSeparated(occ, "");
      assert "" + occ[0] == occ[0];
      assert [occ[0]] + occ[1..] == occ;
    }
  }

  /** With at most one occupied plugin the missing separator does not matter. */
  lemma {:induction false} AsWrittenShortIsIntended(occ: seq<string>)
    requires |occ| <= 1
    ensures AsWrittenList(occ) == IntendedList(occ)
  {
    if |occ| == 1 {
      assert occ[..0] == [];
      assert Concatenated(occ) == "" + Quoted(occ[0]) == Separated(occ);
    }
  }

  /**
   * With two occupied plugins a and b the built list is ('a''b'): SQL reads
   * the doubled quote as an escaped quote, so the list names one plugin,
   * a'b, and excludes neither a nor b.
   */
  lemma {:induction false} AsWrittenMergesTwo(a: string, b: string)
    requires QuoteFree(a) && QuoteFree(b)
    ensures ParseList(AsWrittenList([a, b])) == Some([a + [Quote] + b])
  {
    var s := AsWrittenList([a, b]);
    assert [a, b][..1] == [a];
    assert [a][..0] == [];
    assert Concatenated([a]) == "" + Quoted(a) == Quoted(a);
    assert Concatenated([a, b]) == Quoted(a) + Quoted(b);
    assert s == "(" + [Quote] + (a + ([Quote, Quote] + (b + ([Quote] + ")"))));
    assert s[1..][1..] == a + ([Quote, Quote] + (b + ([Quote] + ")")));
    var t := [Quote, Quote] + (b + ([Quote] + ")"));
    assert ParseList(s) == ParseLiteral(a + t, "");
    ParseQuoteFree(a, t, "");
    assert "" + a == a;
    assert t[2..] == b + ([Quote] + ")");
    assert ParseLiteral(t, a) == ParseLiteral(b + ([Quote] + ")"), a + [Quote]);
    ParseQuoteFree(b, [Quote] + ")", a + [Quote]);
    CloseLiteral(")", a + [Quote] + b);
    assert ParseRest(")") == Some([]);
    assert [a + [Quote] + b] + [] == [a + [Quote] + b];
  }
}
