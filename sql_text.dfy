/**
 * Statement text as the sequence of pieces a StringBuilder received: keywords the
 * command writes itself, the optimizer hint, and SQL produced by expression objects
 * (opaque here). The text is the concatenation of the pieces.
 */
module SqlText {

  datatype Fragment =
    | Keyword(text: string)
    | HintText(text: string)
    | Sql(text: string)

  /** The statement text: every piece's text, in order. */
  function Render(frags: seq<Fragment>): string
  {
    if frags == [] then "" else Render(frags[..|frags| - 1]) + frags[|frags| - 1].text
  }

  /** Appending to the builder appends to the text. */
  lemma {:induction false} RenderAppend(a: seq<Fragment>, b: seq<Fragment>)
    ensures Render(a + b) == Render(a) + Render(b)
  {
    if b != [] {
      var init := b[..|b| - 1];
      assert (a + b)[..|a + b| - 1] == a + init;
      RenderAppend(a, init);
    } else {
      assert a + b == a;
    }
  }

  /** The text of a statement begins with the text of any prefix of its pieces. */
  lemma RenderPrefix(a: seq<Fragment>, b: seq<Fragment>)
    ensures |Render(a)| <= |Render(a + b)| && Render(a + b)[..|Render(a)|] == Render(a)
  {
    RenderAppend(a, b);
  }

  /** A statement whose first piece is the keyword `k` has text starting with `k`. */
  lemma RenderStartsWith(a: seq<Fragment>, k: string)
    requires |a| > 0 && a[0] == Keyword(k)
    ensures |Render(a)| >= |k| && Render(a)[..|k|] == k
  {
    assert a == [Keyword(k)] + a[1..];
    RenderPrefix([Keyword(k)], a[1..]);
    assert Render([Keyword(k)]) == k;
  }

  /** The pieces of a prefix keep their positions once more pieces are appended. */
  lemma AppendSlice(a: seq<Fragment>, b: seq<Fragment>, i: nat, j: nat)
    requires i <= j <= |a|
    ensures (a + b)[i..j] == a[i..j]
  {
  }

  /** Appending four parts one by one is appending them as one. */
  lemma Regroup(head: seq<Fragment>, a: seq<Fragment>, b: seq<Fragment>, c: seq<Fragment>, d: seq<Fragment>)
    ensures head + a + b + c + d == head + (a + b + c + d)
  {
  }

  /** addListExpr: the items' SQL separated by `sep`. */
  function SqlList(items: seq<string>, sep: string): seq<Fragment>
  {
    if items == [] then []
    else
      var init := items[..|items| - 1];
      SqlList(init, sep) + (if init == [] then [] else [Keyword(sep)]) + [Sql(items[|items| - 1])]
  }

  /** `sep` between every two items, written from the front. */
  function JoinWith(items: seq<string>, sep: string): string
  {
    if items == [] then ""
    else if |items| == 1 then items[0]
    else items[0] + sep + JoinWith(items[1..], sep)
  }

  /** A list holds only its items' SQL and the separators: one fewer than the items. */
  lemma {:induction false} SqlListParts(items: seq<string>, sep: string)
    ensures forall f :: f in SqlList(items, sep) ==> f == Keyword(sep) || (f.Sql? && f.text in items)
    ensures |items| > 0 ==> |SqlList(items, sep)| == 2 * |items| - 1
  {
    if items != [] {
      var init := items[..|items| - 1];
      SqlListParts(init, sep);
      assert forall x :: x in init ==> x in items;
    }
  }

  /** A list renders as its items joined by the separator. */
  lemma {:induction false} SqlListRender(items: seq<string>, sep: string)
    ensures Render(SqlList(items, sep)) == JoinWith(items, sep)
  {
    if items != [] {
      var init := items[..|items| - 1];
      var last := items[|items| - 1];
      SqlListRender(init, sep);
      var sepPart := if init == [] then [] else [Keyword(sep)];
      RenderAppend(SqlList(init, sep) + sepPart, [Sql(last)]);
      RenderAppend(SqlList(init, sep), sepPart);
      assert Render([Sql(last)]) == last;
      assert init == [] ==> Render(sepPart) == "";
      assert init != [] ==> Render(sepPart) == sep;
      JoinWithSnoc(init, last, sep);
      assert init + [last] == items;
    }
  }

  /** Joining with one more item at the end adds a separator and the item. */
  lemma {:induction false} JoinWithSnoc(items: seq<string>, last: string, sep: string)
    ensures JoinWith(items + [last], sep)
      == if items == [] then last else JoinWith(items, sep) + sep + last
  {
    if |items| > 1 {
      assert (items + [last])[1..] == items[1..] + [last];
      JoinWithSnoc(items[1..], last, sep);
    } else if |items| == 1 {
      assert (items + [last])[1..] == [last];
    }
  }
}
