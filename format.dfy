/** Python's `str.format` for the constant format strings of the two scripts.
    A format string is written already cut into its literal text and its
    replacement fields; the field names form an enumeration per call site, so a
    field without a matching keyword argument (Python's `KeyError`) cannot be
    written down. Every keyword argument is a string except `wait`, whose
    integer the caller renders in decimal first. */
module Fmt {

  datatype Piece<F> = Lit(text: string) | Field(name: F)

  /** The text one piece contributes. */
  function PieceText<F>(p: Piece<F>, arg: F -> string): string
  {
    match p
    case Lit(s) => s
    case Field(f) => arg(f)
  }

  /** `template.format(**args)`: literal text is copied, each field replaced by its argument. */
  function Format<F>(template: seq<Piece<F>>, arg: F -> string): string
  {
    if template == [] then "" else PieceText(template[0], arg) + Format(template[1..], arg)
  }

  /** Formatting distributes over juxtaposition of format strings. */
  lemma {:induction false} FormatConcat<F>(t1: seq<Piece<F>>, t2: seq<Piece<F>>, arg: F -> string)
    ensures Format(t1 + t2, arg) == Format(t1, arg) + Format(t2, arg)
  {
    if t1 == [] {
      assert t1 + t2 == t2;
    } else {
      assert (t1 + t2)[1..] == t1[1..] + t2;
      FormatConcat(t1[1..], t2, arg);
    }
  }

  /** A format string that is one literal formats to that literal (no braces in it). */
  lemma FormatLiteral<F>(s: string, arg: F -> string)
    ensures Format([Lit(s)], arg) == s
  {
    var t: seq<Piece<F>> := [Lit(s)];
    assert t[1..] == [];
  }

  /** The first piece contributes its text, the rest follows. */
  lemma FormatCons<F>(p: Piece<F>, t: seq<Piece<F>>, arg: F -> string)
    ensures Format([p] + t, arg) == PieceText(p, arg) + Format(t, arg)
  {
    assert ([p] + t)[1..] == t;
  }

  /** A five-piece format string formats to the texts of its pieces in order. */
  lemma FormatFive<F>(p0: Piece<F>, p1: Piece<F>, p2: Piece<F>, p3: Piece<F>, p4: Piece<F>, arg: F -> string)
    ensures Format([p0, p1, p2, p3, p4], arg)
            == PieceText(p0, arg) + PieceText(p1, arg) + PieceText(p2, arg) + PieceText(p3, arg) + PieceText(p4, arg)
  {
    assert [p4][1..] == [] && [p3, p4][1..] == [p4] && [p2, p3, p4][1..] == [p3, p4];
    assert [p1, p2, p3, p4][1..] == [p2, p3, p4] && [p0, p1, p2, p3, p4][1..] == [p1, p2, p3, p4];
    assert Format([p4], arg) == PieceText(p4, arg);
    assert Format([p3, p4], arg) == PieceText(p3, arg) + Format([p4], arg);
    assert Format([p2, p3, p4], arg) == PieceText(p2, arg) + Format([p3, p4], arg);
    assert Format([p1, p2, p3, p4], arg) == PieceText(p1, arg) + Format([p2, p3, p4], arg);
  }

  /** The words of a command line whose words contain no replacement field. */
  function LitWords<F>(words: seq<string>): seq<seq<Piece<F>>>
  {
    seq(|words|, i requires 0 <= i < |words| => [Lit(words[i])])
  }

  /** Formatting each word of a command template: `[w.format(**args) for w in words]`. */
  function FormatEach<F>(words: seq<seq<Piece<F>>>, arg: F -> string): (r: seq<string>)
    ensures |r| == |words|
    ensures forall i :: 0 <= i < |r| ==> r[i] == Format(words[i], arg)
  {
    if words == [] then [] else [Format(words[0], arg)] + FormatEach(words[1..], arg)
  }

  /** Words without replacement fields come out of formatting unchanged. */
  lemma FormatLitWords<F>(words: seq<string>, arg: F -> string)
    ensures FormatEach(LitWords<F>(words), arg) == words
  {
    forall i | 0 <= i < |words|
      ensures FormatEach(LitWords<F>(words), arg)[i] == words[i]
    {
      FormatLiteral(words[i], arg);
    }
  }

  /** Formatting a command template word by word distributes over juxtaposition. */
  lemma FormatEachConcat<F>(t1: seq<seq<Piece<F>>>, t2: seq<seq<Piece<F>>>, arg: F -> string)
    ensures FormatEach(t1 + t2, arg) == FormatEach(t1, arg) + FormatEach(t2, arg)
  {
    assert forall i :: 0 <= i < |t2| ==> (t1 + t2)[|t1| + i] == t2[i];
  }

  /** Formats every word of a command template with the same arguments, one
      word after the other, collecting the results in order. */
  method FormatWords<F>(template: seq<seq<Piece<F>>>, arg: F -> string) returns (words: seq<string>)
    ensures words == FormatEach(template, arg)
  {
    words := [];
    for i := 0 to |template|
      invariant |words| == i
      invariant forall k :: 0 <= k < i ==> words[k] == Format(template[k], arg)
    {
      words := words + [Format(template[i], arg)];
    }
  }
}
