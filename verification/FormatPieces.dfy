/**
 Formats of src/kernel/printfDriver/printf.c as texts and conversions one after the other: the texts are copied, and each
 conversion prints what it prints alone, with its own arguments.
 */
module FormatPieces {
  import opened Gadget
  import opened FormatString
  import opened FormatSpelling

  /** A part of a format: text to be copied, or a conversion. */
  datatype Piece = Text(text: string) | Conversion(spec: Spec)

  predicate PieceOk(p: Piece) {
    match p
    case Text(text) => '%' !in text && '\0' !in text
    case Conversion(spec) => SpecOk(spec)
  }

  /** How a piece is written. */
  function PieceText(p: Piece): string {
    match p case Text(text) => text case Conversion(spec) => Spelled(spec)
  }

  function FormatOf(ps: seq<Piece>): string {
    if ps == [] then "" else PieceText(ps[0]) + FormatOf(ps[1..])
  }

  /** What a piece prints, and the argument after it. */
  function PieceOutput(p: Piece, arg: nat, args: Arguments): string {
    match p case Text(text) => text case Conversion(spec) => SpecText(spec, arg, args)
  }

  function PieceNext(p: Piece, arg: nat, args: Arguments): nat {
    match p case Text(_) => arg case Conversion(spec) => SpecNext(spec, arg, args)
  }

  /** What the pieces print, with the arguments from `arg` on. */
  function TextOf(ps: seq<Piece>, arg: nat, args: Arguments): string {
    if ps == [] then "" else PieceOutput(ps[0], arg, args) + TextOf(ps[1..], PieceNext(ps[0], arg, args), args)
  }

  function NextOf(ps: seq<Piece>, arg: nat, args: Arguments): nat {
    if ps == [] then arg else NextOf(ps[1..], PieceNext(ps[0], arg, args), args)
  }

  lemma {:induction false} FormatIsString(ps: seq<Piece>)
    requires forall k :: 0 <= k < |ps| ==> PieceOk(ps[k])
    ensures '\0' !in FormatOf(ps)
  {
    if ps != [] {
      assert PieceOk(ps[0]);
      FormatIsString(ps[1..]);
      if ps[0].Conversion? {
        SpelledIsString(ps[0].spec);
      }
    }
  }

  /** From position `i` on the format prints `text`, and `over` tells whether it is left. */
  ghost predicate PrintsAll(s: CString, i: nat, arg: nat, text: string, over: bool, args: Arguments) {
    Render(s, i, arg, args) == text && Overruns(s, i, arg, args) == over
  }

  /** From position `i` to `j` of a format `text` is printed, and the argument after it is `next`. */
  ghost predicate Prints(s: CString, i: nat, arg: nat, text: string, j: nat, next: nat, args: Arguments) {
    forall rest, over :: PrintsAll(s, j, next, rest, over, args) ==> PrintsAll(s, i, arg, text + rest, over, args)
  }

  lemma PrintsNothing(s: CString, i: nat, arg: nat, args: Arguments)
    ensures Prints(s, i, arg, "", i, arg, args)
  {
    assert forall rest: string :: "" + rest == rest;
  }

  lemma PrintsBoth(s: CString, i: nat, a: nat, t: string, j: nat, b: nat, u: string, k: nat, c: nat, text: string,
                   args: Arguments)
    requires Prints(s, i, a, t, j, b, args) && Prints(s, j, b, u, k, c, args) && text == t + u
    ensures Prints(s, i, a, text, k, c, args)
  {
    forall rest, over | PrintsAll(s, k, c, rest, over, args)
      ensures PrintsAll(s, i, a, text + rest, over, args)
    {
      Associates(t, u, rest);
      assert PrintsAll(s, j, b, u + rest, over, args);
    }
  }

  lemma PrintsToEnd(s: CString, i: nat, arg: nat, text: string, next: nat, args: Arguments)
    requires Prints(s, i, arg, text, |s|, next, args)
    ensures Render(s, i, arg, args) == text && !Overruns(s, i, arg, args)
  {
    assert PrintsAll(s, |s|, next, "", false, args);
    assert text + "" == text;
  }

  lemma CharIsCopied(s: CString, i: nat, c: char, arg: nat, args: Arguments)
    requires i < |s| && s[i] == c != '%'
    ensures Prints(s, i, arg, [c], i + 1, arg, args)
  {
  }

  /** A text that stands at positions `i` to `j` of a format. */
  predicate TextAt(s: string, i: nat, j: nat, text: string) {
    i <= j <= |s| && s[i..j] == text
  }

  lemma FirstOfText(s: string, i: nat, j: nat, text: string)
    requires TextAt(s, i, j, text) && text != "" && '%' !in text
    ensures i < |s| && s[i] == text[0] != '%' && TextAt(s, i + 1, j, text[1..]) && text == [text[0]] + text[1..]
  {
    assert s[i..j][0] == s[i];
  }

  /** Text without `%` is copied. */
  lemma {:induction false} TextIsCopied(s: CString, i: nat, j: nat, text: string, arg: nat, args: Arguments)
    requires TextAt(s, i, j, text) && '%' !in text
    ensures Prints(s, i, arg, text, j, arg, args)
    decreases |text|
  {
    if text == "" {
      PrintsNothing(s, i, arg, args);
    } else {
      FirstOfText(s, i, j, text);
      CharIsCopied(s, i, text[0], arg, args);
      TextIsCopied(s, i + 1, j, text[1..], arg, args);
      PrintsBoth(s, i, arg, [text[0]], i + 1, arg, text[1..], j, arg, text, args);
    }
  }

  lemma TurnPrints(s: CString, i: nat, arg: nat, text: string, j: nat, next: nat, args: Arguments)
    requires i < |s| && Turned(s, i, arg, args) == Turn(text, j, next, false)
    ensures Prints(s, i, arg, text, j, next, args)
  {
  }

  lemma SpecIsWritten(s: CString, i: nat, j: nat, spec: Spec)
    requires TextAt(s, i, j, Spelled(spec))
    ensures WrittenAt(s, i, spec) && j == i + |Spelled(spec)|
  {
  }

  /** A conversion prints its text. */
  lemma SpecIsPrinted(s: CString, i: nat, j: nat, spec: Spec, arg: nat, args: Arguments)
    requires TextAt(s, i, j, Spelled(spec)) && SpecOk(spec)
    ensures Prints(s, i, arg, SpecText(spec, arg, args), j, SpecNext(spec, arg, args), args)
  {
    SpecIsWritten(s, i, j, spec);
    SpelledTurns(s, i, spec, arg, args);
    TurnPrints(s, i, arg, SpecText(spec, arg, args), j, SpecNext(spec, arg, args), args);
  }

  lemma FirstPart(s: string, i: nat, first: string, rest: string) returns (j: nat)
    requires TextAt(s, i, |s|, first + rest)
    ensures TextAt(s, i, j, first) && TextAt(s, j, |s|, rest)
  {
    j := i + |first|;
    var t := s[i..|s|];
    assert t[..|first|] == first && t[|first|..] == rest;
    assert s[i..j] == t[..|first|] && s[j..|s|] == t[|first|..];
  }

  lemma PieceIsPrinted(s: CString, i: nat, j: nat, p: Piece, arg: nat, args: Arguments)
    requires PieceOk(p) && TextAt(s, i, j, PieceText(p))
    ensures Prints(s, i, arg, PieceOutput(p, arg, args), j, PieceNext(p, arg, args), args)
  {
    if p.Text? {
      TextIsCopied(s, i, j, p.text, arg, args);
    } else {
      SpecIsPrinted(s, i, j, p.spec, arg, args);
    }
  }

  lemma {:induction false} PiecesPrint(s: CString, i: nat, ps: seq<Piece>, arg: nat, args: Arguments)
    requires (forall k :: 0 <= k < |ps| ==> PieceOk(ps[k])) && TextAt(s, i, |s|, FormatOf(ps))
    ensures Prints(s, i, arg, TextOf(ps, arg, args), |s|, NextOf(ps, arg, args), args)
    decreases |ps|
  {
    if ps == [] {
      PrintsNothing(s, i, arg, args);
    } else {
      var next := PieceNext(ps[0], arg, args);
      var j := FirstPart(s, i, PieceText(ps[0]), FormatOf(ps[1..]));
      PieceIsPrinted(s, i, j, ps[0], arg, args);
      PiecesPrint(s, j, ps[1..], next, args);
      PrintsBoth(s, i, arg, PieceOutput(ps[0], arg, args), j, next, TextOf(ps[1..], next, args), |s|,
                 NextOf(ps[1..], next, args), TextOf(ps, arg, args), args);
    }
  }

  /** A format made of texts and conversions prints the texts, and for each conversion its argument, and ends there. */
  lemma FormatPrints(ps: seq<Piece>, args: Arguments)
    requires forall k :: 0 <= k < |ps| ==> PieceOk(ps[k])
    ensures '\0' !in FormatOf(ps)
    ensures Render(FormatOf(ps), 0, 0, args) == TextOf(ps, 0, args) && !Overruns(FormatOf(ps), 0, 0, args)
  {
    FormatIsString(ps);
    PiecesPrint(FormatOf(ps), 0, ps, 0, args);
    PrintsToEnd(FormatOf(ps), 0, 0, TextOf(ps, 0, args), NextOf(ps, 0, args), args);
  }
}
