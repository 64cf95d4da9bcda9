/** Dividing the width of one list row between its parts. Text is its graphemes' widths in cells. */
module RowWidth {
  import opened Basics

  type Graphemes = seq<nat>

  function Width(text: Graphemes): nat {
    if text == [] then 0 else Width(text[..|text| - 1]) + text[|text| - 1]
  }

  /** `usize::saturating_sub` */
  function Less(a: nat, b: nat): nat {
    if a < b then 0 else a - b
  }

  function Spaces(n: nat): Graphemes {
    seq(n, _ => 1)
  }

  lemma {:induction false} WidthAppend(a: Graphemes, b: Graphemes)
    ensures Width(a + b) == Width(a) + Width(b)
  {
    if b == [] {
      assert a + b == a;
    } else {
      WidthAppend(a, b[..|b| - 1]);
      assert (a + b)[..|a + b| - 1] == a + b[..|b| - 1];
    }
  }

  lemma {:induction false} WidthOfSpaces(n: nat)
    ensures Width(Spaces(n)) == n
  {
    if n > 0 {
      WidthOfSpaces(n - 1);
      assert Spaces(n)[..n - 1] == Spaces(n - 1);
    }
  }

  lemma WidthOfPrefix(text: Graphemes, n: nat)
    requires n <= |text|
    ensures Width(text[..n]) <= Width(text)
    ensures n > 0 ==> Width(text[..n]) >= text[0]
  {
    WidthAppend(text[..n], text[n..]);
    assert text == text[..n] + text[n..];
    if n > 0 {
      WidthAppend(text[..1], text[1..n]);
      assert text[..n] == text[..1] + text[1..n];
      assert text[..1][..0] == [];
    }
  }

  // ---------------------------------------------------------------- truncation

  /** `out` is a prefix of `text` that fits, and not even one more grapheme would. */
  predicate IsCut(text: Graphemes, width: nat, out: Graphemes) {
    && out <= text && Width(out) <= width
    && (out == text || Width(text[..|out| + 1]) > width)
  }

  method TruncateTo(text: Graphemes, width: nat) returns (out: Graphemes)
    ensures IsCut(text, width, out)
    ensures out == text <==> Width(text) <= width
  {
    if Width(text) <= width {
      return text;
    }
    out := [];
    var used := 0;
    assert text[..|text|] == text;
    for i := 0 to |text|
      invariant out == text[..i] && used == Width(out) <= width
    {
      assert text[..i + 1][..i] == text[..i];
      if used + text[i] > width {
        WidthOfPrefix(text, i + 1);
        return;
      }
      out := out + [text[i]];
      used := used + text[i];
    }
  }

  /** A cut is the longest prefix that fits, so there is just one. */
  lemma CutIsLongest(text: Graphemes, width: nat, out: Graphemes, n: nat)
    requires IsCut(text, width, out) && n <= |text|
    ensures n <= |out| ==> Width(text[..n]) <= width
    ensures n > |out| ==> Width(text[..n]) > width
  {
    assert text[..|out|] == out;
    if n <= |out| {
      WidthOfPrefix(out, n);
      assert out[..n] == text[..n];
    } else {
      WidthOfPrefix(text[..n], |out| + 1);
      assert text[..n][..|out| + 1] == text[..|out| + 1];
    }
  }

  /** Something is left of a cut exactly when the first grapheme fits. */
  lemma CutIsEmpty(text: Graphemes, width: nat, out: Graphemes)
    requires IsCut(text, width, out) && text != []
    ensures out == [] <==> text[0] > width
  {
    CutIsLongest(text, width, out, 1);
    assert text[..1][..0] == [];
  }

  // ---------------------------------------------------------------- one row

  /** What a row holds besides its title: the mark, the status word, the badge, the summary. */
  datatype Fields = Fields(markWidth: nat, status: Graphemes, pr: Graphemes, summary: Graphemes, elapsedWidth: nat)
  {
    /** Glyph, mark, a space, status, a space and elapsed time. */
    function Required(): nat {
      1 + markWidth + 1 + Width(status) + 1 + elapsedWidth
    }

    /** The cells beyond the required ones. */
    function Room(width: nat): nat {
      Less(width, Required())
    }

    /** The badge fits beside an empty title. */
    predicate PrFits(width: nat) {
      pr != [] && 2 + Width(pr) <= Room(width)
    }

    /** What the gap and the badge take. */
    function BeforeSummary(width: nat): nat {
      if PrFits(width) then 2 + Width(pr) + 1 else 2
    }

    /** After that a grapheme of the summary fits beside an empty title. */
    predicate SummaryFits(width: nat) {
      summary != [] && BeforeSummary(width) + summary[0] <= Room(width)
    }

    /** The badge takes all the room and the summary starts with a grapheme of no width, which is
        shown all the same. */
    predicate Overruns(width: nat) {
      PrFits(width) && 2 + Width(pr) == Room(width) && summary != [] && summary[0] == 0
    }

    function Reserved(width: nat): nat {
      if SummaryFits(width) then BeforeSummary(width) + summary[0]
      else if PrFits(width) then 2 + Width(pr)
      else 0
    }
  }

  /** The title column: as wide as desired unless a complete badge and the start of the summary,
      as far as these can be shown at all, need the cells. */
  method TitleCapacity(width: nat, desired: nat, f: Fields) returns (capacity: nat)
    ensures capacity == Min(desired, f.Room(width) - f.Reserved(width))
    ensures f.Reserved(width) <= f.Room(width)
  {
    var leftFixed := 1 + f.markWidth;
    var statusWidth, prWidth := Width(f.status), Width(f.pr);
    var summaryMinWidth := if f.summary == [] then 0 else f.summary[0];
    var required := leftFixed + 1 + statusWidth + 1 + f.elapsedWidth;
    capacity := Min(desired, Less(width, required));
    if f.pr != [] || f.summary != [] {
      var available := Less(width, required);
      var prMinimum := if f.pr != [] then 2 + prWidth else 0;
      var summaryMinimum := if f.summary != [] then 2 + summaryMinWidth else 0;
      var combinedMinimum := 2 + prWidth + (if f.pr != [] && f.summary != [] then 1 else 0) + summaryMinWidth;
      var minimumSecondary :=
        if f.pr != [] && f.summary != [] && combinedMinimum <= available then combinedMinimum
        else if f.pr != [] && prMinimum <= available then prMinimum
        else if f.summary != [] && summaryMinimum <= available then summaryMinimum
        else 0;
      capacity := Min(capacity, Less(width, required + minimumSecondary));
    }
  }

  datatype Layout = Layout(title: Graphemes, status: Graphemes, pr: Graphemes, summary: Graphemes, pad: nat)

  /** The cells a row takes as it is drawn: glyph, mark, title, space, status, gap, summary, gap,
      padding, badge, space, elapsed time. */
  function Drawn(f: Fields, l: Layout): nat {
    1 + f.markWidth + Width(l.title) + 1 + Width(l.status)
    + (if l.pr != [] || l.summary != [] then 2 else 0) + Width(l.summary)
    + (if l.pr != [] && l.summary != [] then 1 else 0) + l.pad + Width(l.pr) + 1 + f.elapsedWidth
  }

  /** Lays out one row. It takes the viewport's width to the cell, or just what is required if that
      is more, and one cell too many only when the gap before a summary of no width overruns it. The
      badge is shown whole precisely when it fits beside an empty title and else not at all; the
      summary starts to show precisely when a grapheme fits after that. */
  method RowLayout(width: nat, title: Graphemes, titleWidth: nat, f: Fields) returns (l: Layout)
    ensures Drawn(f, l) == if f.Overruns(width) then width + 1 else Max(width, f.Required())
    ensures l.status == f.status
    ensures l.pr == if f.PrFits(width) then f.pr else []
    ensures l.summary != [] <==> f.SummaryFits(width) || f.Overruns(width)
    ensures Width(l.title) == Min(titleWidth, f.Room(width) - f.Reserved(width))
    ensures exists cut, gap :: IsCut(title, Width(l.title), cut) && l.title == cut + Spaces(gap)
    ensures f.SummaryFits(width)
            ==> IsCut(f.summary, f.Room(width) - Width(l.title) - f.BeforeSummary(width), l.summary)
  {
    hide IsCut, Spaces;
    var titleCapacity := TitleCapacity(width, titleWidth, f);
    var leftFixed := 1 + f.markWidth;
    var statusWidth, prWidth := Width(f.status), Width(f.pr);
    var required := leftFixed + 1 + statusWidth + 1 + f.elapsedWidth;

    var cut := TruncateTo(title, titleCapacity);
    var titleOut := cut + Spaces(Less(titleCapacity, Width(cut)));
    WidthOfSpaces(Less(titleCapacity, Width(cut)));
    WidthAppend(cut, Spaces(Less(titleCapacity, Width(cut))));

    var secondaryCapacity := Less(width, required + titleCapacity);
    var prOut, summaryOut: Graphemes := [], [];
    if secondaryCapacity >= 2 {
      secondaryCapacity := secondaryCapacity - 2;
      if f.pr != [] && prWidth <= secondaryCapacity {
        prOut := f.pr;
        secondaryCapacity := secondaryCapacity - prWidth;
      }
      if f.summary != [] {
        if prOut != [] {
          secondaryCapacity := Less(secondaryCapacity, 1);
        }
        summaryOut := TruncateTo(f.summary, secondaryCapacity);
        CutIsEmpty(f.summary, secondaryCapacity, summaryOut);
      }
    }

    var secondaryGap := if prOut != [] || summaryOut != [] then 2 else 0;
    var prSummaryGap := if prOut != [] && summaryOut != [] then 1 else 0;
    var used := leftFixed + titleCapacity + 1 + statusWidth + secondaryGap + Width(prOut) + prSummaryGap
      + Width(summaryOut) + 1 + f.elapsedWidth;
    l := Layout(titleOut, f.status, prOut, summaryOut, Less(width, used));
  }

  /** With positive widths no row overruns its viewport. */
  lemma PositiveWidthsFit(f: Fields, width: nat)
    requires forall i :: 0 <= i < |f.summary| ==> f.summary[i] > 0
    ensures !f.Overruns(width)
  {
  }

  /** Without them one does: a one-cell badge in a viewport of six cells, beside a summary that is a
      single grapheme of no width, such as a joiner. */
  lemma OverrunOccurs()
    ensures var f := Fields(0, [], [1], [0], 0);
            f.Required() == 3 && f.PrFits(6) && f.Overruns(6)
  {
    assert [1][..0] == [];
  }
}
