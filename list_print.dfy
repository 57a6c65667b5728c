/** `List_Base::print` (curv/list.cc): a list is written as `[`, the
    elements' own printed forms separated by `,`, and `]`. How an element
    prints itself is not part of this model; it is the parameter `show`. */
module ListPrint {
  import opened Stream

  /** The printed forms of the elements, in index order. */
  function Texts<T>(xs: seq<T>, show: T -> string): seq<string>
  {
    seq(|xs|, i requires 0 <= i < |xs| => show(xs[i]))
  }

  /** The texts with one `,` between neighbours, none before the first and
      none after the last. */
  function Join(ts: seq<string>): string
  {
    if |ts| == 0 then ""
    else if |ts| == 1 then ts[0]
    else ts[0] + "," + Join(ts[1..])
  }

  /** The whole text `print` appends for a list with elements `xs`. */
  function ListText<T>(xs: seq<T>, show: T -> string): string
  {
    "[" + Join(Texts(xs, show)) + "]"
  }

  /** The number of separators a list of `n` elements needs. */
  function Separators(n: nat): nat
  {
    if n == 0 then 0 else n - 1
  }

  /** Sum of the lengths of the texts. */
  function TotalLength(ts: seq<string>): nat
  {
    if |ts| == 0 then 0 else |ts[0]| + TotalLength(ts[1..])
  }

  /** Number of `,` characters in `s`. */
  function Commas(s: string): nat
  {
    if |s| == 0 then 0 else (if s[0] == ',' then 1 else 0) + Commas(s[1..])
  }

  /** Sum of the comma counts of the texts. */
  function TotalCommas(ts: seq<string>): nat
  {
    if |ts| == 0 then 0 else Commas(ts[0]) + TotalCommas(ts[1..])
  }

  /** Where text `i` begins inside `Join(ts)`. */
  function Offset(ts: seq<string>, i: nat): nat
    requires i < |ts|
  {
    if i == 0 then 0 else |ts[0]| + 1 + Offset(ts[1..], i - 1)
  }

  /** A reader for the comma-separated form: the pieces of `s` between
      commas, in order. */
  function Split(s: string): (r: seq<string>)
    ensures |r| >= 1
  {
    if |s| == 0 then [""]
    else
      var rest := Split(s[1..]);
      if s[0] == ',' then [""] + rest
      else [[s[0]] + rest[0]] + rest[1..]
  }

  /** The inverse of `ListText` for lists whose element texts are non-empty
      and contain no comma: strips the brackets and splits at the commas. */
  function ParseList(s: string): seq<string>
    requires |s| >= 2
  {
    if |s| == 2 then [] else Split(s[1..|s| - 1])
  }

  /** The element texts can be read back unambiguously: none holds a comma,
      and a lone element is not empty (its list would otherwise print as `[]`,
      the same as the empty list). */
  predicate Readable(ts: seq<string>)
  {
    (forall i :: 0 <= i < |ts| ==> ',' !in ts[i]) && (|ts| == 1 ==> |ts[0]| > 0)
  }

  /** The list object: its elements live in a fixed-size array. */
  class ListBase<T> {
    const elems: array<T>

    constructor (a: array<T>)
      ensures elems == a
    {
      elems := a;
    }

    /** Appends `[`, then element 0, `,`, element 1, ..., then `]`. The list
        itself is `const` here and stays unchanged. */
    method Print(show: T -> string, out: OStream)
      modifies out
      ensures out.text == old(out.text) + ListText(elems[..], show)
      ensures elems[..] == old(elems[..])
    {
      out.Write("[");
      var i := 0;
      while i < elems.Length
        invariant 0 <= i <= elems.Length
        invariant out.text == old(out.text) + "[" + Join(Texts(elems[..i], show))
      {
        ghost var done := Texts(elems[..i], show);
        assert Texts(elems[..i + 1], show) == done + [show(elems[i])];
        if i > 0 {
          out.Write(",");
        }
        out.Write(show(elems[i]));
        JoinSnoc(done, show(elems[i]));
        i := i + 1;
      }
      out.Write("]");
      assert elems[..i] == elems[..];
    }
  }

  /** Appending one more text adds a separator only when something is
      already there. */
  lemma {:induction false} JoinSnoc(ts: seq<string>, t: string)
    ensures Join(ts + [t]) == if |ts| == 0 then t else Join(ts) + "," + t
  {
    if |ts| > 1 {
      assert (ts + [t])[1..] == ts[1..] + [t];
      JoinSnoc(ts[1..], t);
    }
  }

  /** An empty list prints as exactly `[]`. */
  lemma EmptyListText<T>(show: T -> string)
    ensures ListText([], show) == "[]"
  {
  }

  /** A one-element list prints its element between the brackets, with no
      separator. */
  lemma SingletonListText<T>(x: T, show: T -> string)
    ensures ListText([x], show) == "[" + show(x) + "]"
  {
    assert Texts([x], show) == [show(x)];
  }

  /** The text always opens with `[` and closes with `]`. */
  lemma ListTextBrackets<T>(xs: seq<T>, show: T -> string)
    ensures |ListText(xs, show)| >= 2
    ensures ListText(xs, show)[0] == '['
    ensures ListText(xs, show)[|ListText(xs, show)| - 1] == ']'
  {
  }

  /** Length of the joined text: all element texts plus one separator
      between each pair of neighbours. */
  lemma {:induction false} JoinLength(ts: seq<string>)
    ensures |Join(ts)| == TotalLength(ts) + Separators(|ts|)
  {
    if |ts| > 1 {
      JoinLength(ts[1..]);
    }
  }

  /** Length of the whole printed list. */
  lemma ListTextLength<T>(xs: seq<T>, show: T -> string)
    ensures |ListText(xs, show)| == 2 + TotalLength(Texts(xs, show)) + Separators(|xs|)
  {
    JoinLength(Texts(xs, show));
  }

  lemma {:induction false} CommasConcat(a: string, b: string)
    ensures Commas(a + b) == Commas(a) + Commas(b)
  {
    if |a| == 0 {
      assert a + b == b;
    } else {
      assert (a + b)[1..] == a[1..] + b;
      CommasConcat(a[1..], b);
    }
  }

  /** The joined text holds exactly the separators plus whatever commas the
      element texts hold themselves. */
  lemma {:induction false} JoinCommas(ts: seq<string>)
    ensures Commas(Join(ts)) == Separators(|ts|) + TotalCommas(ts)
  {
    if |ts| == 1 {
      assert TotalCommas(ts[1..]) == 0;
    } else if |ts| > 1 {
      JoinCommas(ts[1..]);
      CommasConcat(ts[0], ",");
      CommasConcat(ts[0] + ",", Join(ts[1..]));
      assert Commas(",") == 1;
    }
  }

  /** `print` writes n-1 separators for n > 0 elements and none for the
      empty list; every other comma in the output comes from an element. In
      particular, when no element text contains a comma the output holds
      exactly `Separators(|xs|)` of them. */
  lemma ListTextCommas<T>(xs: seq<T>, show: T -> string)
    ensures Commas(ListText(xs, show)) == Separators(|xs|) + TotalCommas(Texts(xs, show))
  {
    var ts := Texts(xs, show);
    JoinCommas(ts);
    CommasConcat("[", Join(ts));
    CommasConcat("[" + Join(ts), "]");
  }

  /** Text `i` sits at `Offset(ts, i)` inside the joined text; a `,` comes
      right before it unless it is the first, and right after it unless it is
      the last. */
  lemma {:induction false} JoinPlacement(ts: seq<string>, i: nat)
    requires i < |ts|
    ensures Offset(ts, i) + |ts[i]| <= |Join(ts)|
    ensures i + 1 < |ts| ==> Offset(ts, i) + |ts[i]| < |Join(ts)|
    ensures i + 1 == |ts| ==> Offset(ts, i) + |ts[i]| == |Join(ts)|
    ensures i == 0 ==> Offset(ts, i) == 0
    ensures Join(ts)[Offset(ts, i)..Offset(ts, i) + |ts[i]|] == ts[i]
    ensures i > 0 ==> Join(ts)[Offset(ts, i) - 1] == ','
    ensures i + 1 < |ts| ==> Join(ts)[Offset(ts, i) + |ts[i]|] == ','
  {
    if |ts| > 1 {
      var rest := ts[1..];
      var head := ts[0] + ",";
      assert Join(ts) == head + Join(rest);
      if i > 0 {
        JoinPlacement(rest, i - 1);
        assert rest[i - 1] == ts[i];
        var k := Offset(rest, i - 1);
        assert Offset(ts, i) == |head| + k;
        assert Join(ts)[|head| + k..|head| + k + |ts[i]|] == Join(rest)[k..k + |ts[i]|];
        assert Join(ts)[|head| + k - 1] == if k == 0 then ',' else Join(rest)[k - 1];
        if i + 1 < |ts| {
          assert Join(ts)[|head| + k + |ts[i]|] == Join(rest)[k + |ts[i]|];
        }
      } else {
        assert Join(ts)[..|ts[0]|] == ts[0];
        assert Join(ts)[|ts[0]|] == ',';
      }
    }
  }

  /** Elements appear in index order: the text of element `i` occupies
      `[Offset + 1, Offset + 1 + |show(xs[i])|)` of the printed list, opened by
      `[` (first element) or `,` (any later one) and closed by `,` or by the
      final `]`. */
  lemma ListTextPlacement<T>(xs: seq<T>, show: T -> string, i: nat)
    requires i < |xs|
    ensures var s, ts := ListText(xs, show), Texts(xs, show);
      var start := 1 + Offset(ts, i);
      && start + |show(xs[i])| < |s|
      && s[start..start + |show(xs[i])|] == show(xs[i])
      && s[start - 1] == (if i == 0 then '[' else ',')
      && s[start + |show(xs[i])|] == (if i + 1 == |xs| then ']' else ',')
  {
    var ts := Texts(xs, show);
    JoinPlacement(ts, i);
    var s := ListText(xs, show);
    var start := 1 + Offset(ts, i);
    assert s[1..|s| - 1] == Join(ts);
    assert s[start..start + |ts[i]|] == Join(ts)[Offset(ts, i)..Offset(ts, i) + |ts[i]|];
  }

  lemma {:induction false} SplitNoComma(t: string)
    requires ',' !in t
    ensures Split(t) == [t]
  {
    if |t| > 0 {
      SplitNoComma(t[1..]);
      assert [t[0]] + t[1..] == t;
    }
  }

  lemma {:induction false} SplitAtFirstComma(t: string, u: string)
    requires ',' !in t
    ensures Split(t + "," + u) == [t] + Split(u)
  {
    if |t| == 0 {
      assert t + "," + u == [','] + u;
      assert (t + "," + u)[1..] == u;
    } else {
      assert (t + "," + u)[1..] == t[1..] + "," + u;
      SplitAtFirstComma(t[1..], u);
      assert [t[0]] + t[1..] == t;
    }
  }

  /** Reading the joined text back at its commas recovers the texts, as long
      as they hold no comma themselves. */
  lemma {:induction false} SplitJoin(ts: seq<string>)
    requires |ts| > 0
    requires forall i :: 0 <= i < |ts| ==> ',' !in ts[i]
    ensures Split(Join(ts)) == ts
  {
    if |ts| == 1 {
      SplitNoComma(ts[0]);
    } else {
      SplitJoin(ts[1..]);
      SplitAtFirstComma(ts[0], Join(ts[1..]));
    }
  }

  /** Round trip: when no element text holds a comma (and a lone element's
      text is not empty), the printed list can be read back into exactly the
      elements' texts, in order, and the empty list reads back as empty. */
  lemma ParseListText<T>(xs: seq<T>, show: T -> string)
    requires Readable(Texts(xs, show))
    ensures |ListText(xs, show)| >= 2
    ensures ParseList(ListText(xs, show)) == Texts(xs, show)
  {
    var ts := Texts(xs, show);
    var s := ListText(xs, show);
    assert s[1..|s| - 1] == Join(ts);
    if |xs| > 0 {
      JoinLength(ts);
      if |xs| == 1 {
        assert TotalLength(ts) == |ts[0]| + TotalLength(ts[1..]);
      }
      assert |Join(ts)| > 0;
      SplitJoin(ts);
    }
  }
}
