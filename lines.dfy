/**
 * Per-line helpers of main.go: the display directive a script may prefix to
 * a line (parseLineStyle), the query match, the column text drawLine shows,
 * clamp and padRight.
 */
module Lines {
  import opened GoStrings

  /** The directive introducer "ESC ] 6366 ;"; a directive ends at the first BEL. */
  const Osc: string := "\U{1b}]6366;"
  const Bel: char := '\U{7}'

  datatype Parsed = Parsed(text: string, highlight: bool)

  /** A line that starts with a complete directive: the introducer and, somewhere, a BEL. */
  predicate StartsWithDirective(s: string) {
    HasPrefix(s, Osc) && Bel in s
  }

  predicate IsSuffix(t: string, s: string) {
    |t| <= |s| && s[|s| - |t|..] == t
  }

  lemma SuffixTrans(a: string, b: string, c: string)
    requires IsSuffix(a, b) && IsSuffix(b, c)
    ensures IsSuffix(a, c)
  {
    assert c[|c| - |b|..][|b| - |a|..] == c[|c| - |a|..];
  }

  lemma OscHasNoBel()
    ensures Bel !in Osc
  {
  }

  /** The first BEL of a line that starts with a directive comes after the introducer. */
  lemma DirectiveEnd(s: string)
    requires StartsWithDirective(s)
    ensures |Osc| <= IndexOf(s, Bel) < |s|
  {
    assert s[..|Osc|] == Osc;
  }

  /** The option of the leading directive: the text between the introducer and the first BEL. */
  function DirectiveOption(s: string): string
    requires StartsWithDirective(s)
  {
    DirectiveEnd(s);
    s[|Osc|..IndexOf(s, Bel)]
  }

  /** What follows the leading directive. */
  function AfterDirective(s: string): (r: string)
    requires StartsWithDirective(s)
    ensures |r| < |s| && IsSuffix(r, s)
  {
    DirectiveEnd(s);
    s[IndexOf(s, Bel) + 1..]
  }

  /** The loop's slices at the first BEL are the directive's option and what follows it. */
  lemma DirectiveParts(s: string, end: int)
    requires StartsWithDirective(s) && end == IndexOf(s, Bel)
    ensures |Osc| <= end < |s|
    ensures s[|Osc|..end] == DirectiveOption(s)
    ensures s[end + 1..] == AfterDirective(s)
  {
    DirectiveEnd(s);
  }

  /**
   * Reference definition of parseLineStyle: strip leading directives one by
   * one; highlight is set when a stripped option is "highlight". The text
   * left is a suffix of the line.
   */
  function StripDirectives(raw: string): (r: Parsed)
    ensures IsSuffix(r.text, raw)
    decreases |raw|
  {
    if StartsWithDirective(raw) then
      var rest := StripDirectives(AfterDirective(raw));
      SuffixTrans(rest.text, AfterDirective(raw), raw);
      Parsed(rest.text, rest.highlight || DirectiveOption(raw) == "highlight")
    else
      Parsed(raw, false)
  }

  /** parseLineStyle (main.go:476-491), the loop as written. */
  method ParseLineStyle(raw: string) returns (text: string, highlight: bool)
    ensures Parsed(text, highlight) == StripDirectives(raw)
  {
    text := raw;
    highlight := false;
    while HasPrefix(text, Osc)
      invariant StripDirectives(raw) ==
                Parsed(StripDirectives(text).text, highlight || StripDirectives(text).highlight)
      decreases |text|
    {
      var end := IndexOf(text, Bel);
      if end == -1 {
        break;
      }
      DirectiveParts(text, end);
      var option := text[|Osc|..end];
      var next := text[end + 1..];
      text := next;
      if option == "highlight" {
        highlight := true;
      }
    }
  }

  /** The stripped text starts with no directive, so stripping again changes nothing. */
  lemma {:induction false} StripIdempotent(raw: string)
    ensures !StartsWithDirective(StripDirectives(raw).text)
    ensures StripDirectives(StripDirectives(raw).text) == Parsed(StripDirectives(raw).text, false)
    decreases |raw|
  {
    if StartsWithDirective(raw) {
      StripIdempotent(AfterDirective(raw));
    }
  }

  /** How a script writes directives: "ESC ] 6366 ;" option BEL, once per option. */
  function Encode(opts: seq<string>): string {
    if opts == [] then "" else Osc + opts[0] + [Bel] + Encode(opts[1..])
  }

  predicate WellFormedOptions(opts: seq<string>) {
    forall k :: 0 <= k < |opts| ==> Bel !in opts[k]
  }

  /** One encoded directive is recognised, and its option and remainder recovered. */
  lemma DecodeDirective(o: string, tail: string)
    requires Bel !in o
    ensures StartsWithDirective(Osc + o + [Bel] + tail)
    ensures DirectiveOption(Osc + o + [Bel] + tail) == o
    ensures AfterDirective(Osc + o + [Bel] + tail) == tail
  {
    var raw := Osc + o + [Bel] + tail;
    OscHasNoBel();
    assert Bel !in Osc + o;
    IndexOfFirst(Osc + o, Bel, tail);
    assert raw[..|Osc|] == Osc;
    assert raw[|Osc|..|Osc| + |o|] == o;
    assert raw[|Osc| + |o| + 1..] == tail;
  }

  /** A line that starts with a directive is that directive, encoded, followed by the rest. */
  lemma SplitDirective(s: string)
    requires StartsWithDirective(s)
    ensures Bel !in DirectiveOption(s)
    ensures s == Osc + DirectiveOption(s) + [Bel] + AfterDirective(s)
  {
    var end := IndexOf(s, Bel);
    DirectiveParts(s, end);
    var opt, tail := s[|Osc|..end], s[end + 1..];
    var upTo := s[..end];
    assert upTo[|Osc|..] == opt;
    assert Bel !in opt by {
      assert forall k :: 0 <= k < |opt| ==> opt[k] == upTo[|Osc| + k];
    }
    assert upTo == Osc + opt by {
      assert upTo[..|Osc|] == s[..|Osc|];
    }
    assert s == upTo + [s[end]] + tail;
  }

  /** One step of StripDirectives: the leading directive is removed and its option recorded. */
  lemma StripStep(s: string)
    requires StartsWithDirective(s)
    ensures StripDirectives(s).text == StripDirectives(AfterDirective(s)).text
    ensures StripDirectives(s).highlight <==>
              StripDirectives(AfterDirective(s)).highlight || DirectiveOption(s) == "highlight"
  {
  }

  /** Stripping recovers the text after the encoded directives, and highlight iff one option is "highlight". */
  lemma {:induction false} StripEncode(opts: seq<string>, s: string)
    requires WellFormedOptions(opts)
    requires !StartsWithDirective(s)
    ensures StripDirectives(Encode(opts) + s) == Parsed(s, "highlight" in opts)
  {
    if opts == [] {
      assert Encode(opts) + s == s;
    } else {
      var o, more := opts[0], opts[1..];
      var tail := Encode(more) + s;
      var raw := Encode(opts) + s;
      assert opts == [o] + more;
      EncodeCons(o, more, s);
      assert raw == Osc + o + [Bel] + tail;
      assert WellFormedOptions(more) by {
        forall k | 0 <= k < |more| ensures Bel !in more[k] {
          assert more[k] == opts[k + 1];
        }
      }
      StripEncode(more, s);
      DecodeDirective(o, tail);
      StripStep(raw);
      assert ("highlight" in opts) <==> ("highlight" in more || o == "highlight");
    }
  }

  lemma EncodeCons(o: string, more: seq<string>, text: string)
    ensures Encode([o] + more) + text == Osc + o + [Bel] + (Encode(more) + text)
  {
    assert ([o] + more)[1..] == more;
  }

  /** Every line is some encoded directives followed by its stripped text. */
  lemma {:induction false} StripDecompose(raw: string) returns (opts: seq<string>)
    ensures WellFormedOptions(opts)
    ensures raw == Encode(opts) + StripDirectives(raw).text
    ensures StripDirectives(raw).highlight <==> "highlight" in opts
    decreases |raw|
  {
    if StartsWithDirective(raw) {
      var o := DirectiveOption(raw);
      var tail := AfterDirective(raw);
      var more := StripDecompose(tail);
      var st := StripDirectives(tail).text;
      SplitDirective(raw);
      StripStep(raw);
      opts := [o] + more;
      EncodeCons(o, more, st);
      assert raw == Osc + o + [Bel] + (Encode(more) + st);
      assert ("highlight" in opts) <==> ("highlight" in more || o == "highlight");
      assert WellFormedOptions(opts) by {
        forall k | 0 <= k < |opts| ensures Bel !in opts[k] {
          if k > 0 {
            assert opts[k] == more[k - 1];
          }
        }
      }
    } else {
      opts := [];
      assert Encode(opts) + raw == raw;
    }
  }

  /** A highlighted line: the directive is removed and highlight is set. */
  lemma HighlightDirective(s: string)
    requires !HasPrefix(s, Osc)
    ensures StripDirectives(Osc + "highlight" + [Bel] + s) == Parsed(s, true)
  {
    var opts := ["highlight"];
    assert Encode(opts[1..]) == "";
    assert Encode(opts) == Osc + "highlight" + [Bel];
    assert WellFormedOptions(opts);
    StripEncode(opts, s);
  }

  /** match (main.go:462-467): case-insensitive substring test on the stripped text. */
  predicate Match(item: string, query: string)
    ensures Match(item, query) ==> |query| <= |StripDirectives(item).text|
  {
    Contains(Lower(StripDirectives(item).text), Lower(query))
  }

  lemma MatchEmptyQuery(item: string)
    ensures Match(item, "")
  {
    assert OccursAt(Lower(StripDirectives(item).text), Lower(""), 0);
  }

  lemma MatchIgnoresQueryCase(item: string, query: string)
    ensures Match(item, query) == Match(item, Lower(query))
  {
    LowerIdempotent(query);
  }

  /** Directives never take part in matching. */
  lemma MatchIgnoresDirectives(opts: seq<string>, s: string, query: string)
    requires WellFormedOptions(opts)
    requires !StartsWithDirective(s)
    ensures Match(Encode(opts) + s, query) == Match(s, query)
  {
    StripEncode(opts, s);
    StripEncode([], s);
  }

  /**
   * Typing more only narrows the list: a line that matches a query matches
   * every part of it.
   */
  lemma MatchNarrows(item: string, a: string, q: string, b: string)
    requires Match(item, a + q + b)
    ensures Match(item, q)
  {
    LowerConcat(a, q);
    LowerConcat(a + q, b);
    ContainsInfix(Lower(StripDirectives(item).text), Lower(a), Lower(q), Lower(b));
  }

  /** drawLine indexes columns from 1; Go would panic on a smaller one. */
  predicate ColumnsValid(cols: seq<int>) {
    forall k :: 0 <= k < |cols| ==> cols[k] >= 1
  }

  /** The 1-indexed columns of drawLine that exist, in the order listed. */
  function PickColumns(fields: seq<string>, cols: seq<int>): (r: seq<string>)
    requires ColumnsValid(cols)
    ensures |r| <= |cols|
  {
    if cols == [] then []
    else
      var c := cols[|cols| - 1];
      PickColumns(fields, cols[..|cols| - 1]) + (if c - 1 <= |fields| - 1 then [fields[c - 1]] else [])
  }

  /** The text drawLine shows for a stripped line (main.go:330-341). */
  function ColumnText(text: string, cols: seq<int>): string
    requires ColumnsValid(cols)
  {
    if |cols| > 0 then Join(PickColumns(Split(text, '\t'), cols), " ")
    else Replace(text, '\t', ' ')
  }

  /** drawLine's text computation: strip the directive, then select columns (main.go:328-341). */
  method DrawText(raw: string, cols: seq<int>) returns (text: string, highlight: bool)
    requires ColumnsValid(cols)
    ensures text == ColumnText(StripDirectives(raw).text, cols)
    ensures highlight == StripDirectives(raw).highlight
  {
    text, highlight := ParseLineStyle(raw);
    if |cols| > 0 {
      var columns := Split(text, '\t');
      var filtered := SelectColumns(columns, cols);
      text := Join(filtered, " ");
    } else {
      text := Replace(text, '\t', ' ');
    }
  }

  /** drawLine's column loop: the listed columns that exist, in order. */
  method SelectColumns(columns: seq<string>, cols: seq<int>) returns (filtered: seq<string>)
    requires ColumnsValid(cols)
    ensures filtered == PickColumns(columns, cols)
  {
    filtered := [];
    for k := 0 to |cols|
      invariant filtered == PickColumns(columns, cols[..k])
    {
      assert cols[..k + 1][..k] == cols[..k];
      if cols[k] - 1 <= |columns| - 1 {
        filtered := filtered + [columns[cols[k] - 1]];
      }
    }
    assert cols[..|cols|] == cols;
  }

  /** In-range columns are taken exactly, position by position. */
  lemma {:induction false} PickInRange(fields: seq<string>, cols: seq<int>)
    requires forall k :: 0 <= k < |cols| ==> 1 <= cols[k] <= |fields|
    ensures |PickColumns(fields, cols)| == |cols|
    ensures forall k :: 0 <= k < |cols| ==> PickColumns(fields, cols)[k] == fields[cols[k] - 1]
  {
    if cols != [] {
      var n := |cols| - 1;
      var init := cols[..n];
      PickInRange(fields, init);
      var r := PickColumns(fields, cols);
      assert r == PickColumns(fields, init) + [fields[cols[n] - 1]];
      forall k | 0 <= k < |cols|
        ensures r[k] == fields[cols[k] - 1]
      {
        if k < n {
          assert init[k] == cols[k];
        }
      }
    }
  }

  function Ascending(n: nat): (r: seq<int>)
    ensures |r| == n && forall k :: 0 <= k < n ==> r[k] == k + 1
  {
    if n == 0 then [] else Ascending(n - 1) + [n]
  }

  /** Listing every column in order shows the same text as having no column list. */
  lemma AllColumns(text: string)
    ensures ColumnText(text, Ascending(|Split(text, '\t')|)) == ColumnText(text, [])
  {
    var fields := Split(text, '\t');
    var cols := Ascending(|fields|);
    PickInRange(fields, cols);
    assert PickColumns(fields, cols) == fields;
    JoinSplit(text, '\t', ' ');
  }

  lemma {:induction false} JoinNoTab(parts: seq<string>)
    requires forall k :: 0 <= k < |parts| ==> '\t' !in parts[k]
    ensures '\t' !in Join(parts, " ")
  {
    if |parts| > 1 {
      JoinNoTab(parts[1..]);
    }
  }

  lemma {:induction false} PickedHaveNoTab(fields: seq<string>, cols: seq<int>)
    requires ColumnsValid(cols)
    requires forall k :: 0 <= k < |fields| ==> '\t' !in fields[k]
    ensures forall k :: 0 <= k < |PickColumns(fields, cols)| ==> '\t' !in PickColumns(fields, cols)[k]
  {
    if cols != [] {
      PickedHaveNoTab(fields, cols[..|cols| - 1]);
    }
  }

  /** The displayed text never contains a tab, with or without a column list. */
  lemma ColumnTextHasNoTab(text: string, cols: seq<int>)
    requires ColumnsValid(cols)
    ensures '\t' !in ColumnText(text, cols)
  {
    if |cols| > 0 {
      PickedHaveNoTab(Split(text, '\t'), cols);
      JoinNoTab(PickColumns(Split(text, '\t'), cols));
    }
  }

  /** clamp (main.go:456-460): max with the lower bound, then min with the upper. */
  function Clamp(v: int, mn: int, mx: int): (r: int)
    ensures mn <= mx ==> mn <= r <= mx
    ensures mn <= v <= mx ==> r == v
    ensures v < mn <= mx ==> r == mn
    ensures v > mx ==> r == mx
    ensures mn > mx ==> r == mx
  {
    var lo := if v > mn then v else mn;
    if lo < mx then lo else mx
  }

  /** padRight (main.go:523-529). */
  function PadRight(s: string, p: string, width: int): (r: string)
    ensures |r| >= |s| && r[..|s|] == s
    ensures |s| >= width ==> r == s
    ensures |s| < width ==> |r| == |s| + (width - |s|) * |p| && r[|s|..] == Repeat(p, width - |s|)
  {
    var gap := width - |s|;
    if gap <= 0 then s else s + Repeat(p, gap)
  }

  /** The padding of a short string is copies of `p`: copy j holds p's characters in order. */
  lemma PadRightContents(s: string, p: string, width: int, j: nat, c: nat)
    requires |s| < width && j < width - |s| && c < |p|
    ensures |s| + j * |p| + c < |PadRight(s, p, width)|
    ensures PadRight(s, p, width)[|s| + j * |p| + c] == p[c]
  {
    var r := PadRight(s, p, width);
    RepeatAt(p, width - |s|, j, c);
    assert r[|s| + j * |p| + c] == r[|s|..][j * |p| + c];
  }

  /** With a one-character pad, a short string is filled with it up to exactly `width`. */
  lemma PadRightWidth(s: string, p: string, width: int)
    requires |p| == 1 && |s| < width
    ensures |PadRight(s, p, width)| == width
    ensures forall k :: |s| <= k < width ==> PadRight(s, p, width)[k] == p[0]
  {
    RepeatChar(p, width - |s|);
  }
}
