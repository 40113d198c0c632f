/** The verse records the route formats and the client keeps. */
module Verses {

  /**
   * A formatted line: `verseId`, the Gurmukhi text (Unicode, or `""`) and
   * the English transliteration (or `""`). Translations are carried
   * through unchanged by the source and are not modelled.
   */
  datatype Line = Line(id: int, gurmukhi: string, transliteration: string)

  /** `.filter(line => line.gurmukhi !== "")`, order kept. */
  function Displayable(lines: seq<Line>): (r: seq<Line>)
    ensures |r| <= |lines|
    ensures forall k :: 0 <= k < |r| ==> r[k].gurmukhi != "" && r[k] in lines
    ensures (forall k :: 0 <= k < |lines| ==> lines[k].gurmukhi != "") ==> r == lines
  {
    if lines == [] then []
    else (if lines[0].gurmukhi == "" then [] else [lines[0]]) + Displayable(lines[1..])
  }

  /** The filter works piece by piece, so every line with Gurmukhi text is kept, in order. */
  lemma {:induction false} DisplayableConcat(a: seq<Line>, b: seq<Line>)
    ensures Displayable(a + b) == Displayable(a) + Displayable(b)
  {
    if a != [] {
      var head := if a[0].gurmukhi == "" then [] else [a[0]];
      calc {
        Displayable(a + b);
        { assert (a + b)[0] == a[0] && (a + b)[1..] == a[1..] + b; }
        head + Displayable(a[1..] + b);
        { DisplayableConcat(a[1..], b); }
        head + (Displayable(a[1..]) + Displayable(b));
        (head + Displayable(a[1..])) + Displayable(b);
      }
    } else {
      assert a + b == b;
    }
  }

  /** A single line is kept exactly when its Gurmukhi text is not empty. */
  lemma DisplayableSingle(line: Line)
    ensures Displayable([line]) == if line.gurmukhi == "" then [] else [line]
  {
  }
}
