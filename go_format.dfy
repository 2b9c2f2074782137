/** The part of Go's `fmt.Fprintf` that string arguments meet: a format is
    a sequence of literal text and `%[width]verb` directives, each directive
    consuming the next argument. */
module GoFormat {

  /** One piece of a format string. `width` 0 stands for "no width", which
      pads nothing either way. */
  datatype Piece = Text(text: string) | Verb(width: nat, verb: char)

  /** Verbs this model covers on string arguments: `%s` and `%v` print the
      string, `%%` prints a percent sign; `%q`, `%x`, `%X` and `%T` are not
      modelled; every other verb is a bad verb for a string. */
  predicate Modelled(pieces: seq<Piece>) {
    forall k :: 0 <= k < |pieces| && pieces[k].Verb? ==> pieces[k].verb !in {'q', 'x', 'X', 'T'}
  }

  function Spaces(n: nat): (r: string)
    ensures |r| == n && forall i :: 0 <= i < n ==> r[i] == ' '
  {
    seq(n, _ => ' ')
  }

  /** `padString` without the '-' flag: right-justified in `width` runes. */
  function Pad(s: string, width: nat): (r: string)
    ensures |r| == if width > |s| then width else |s|
    ensures r[|r| - |s|..] == s
    ensures forall i :: 0 <= i < |r| - |s| ==> r[i] == ' '
  {
    if width > |s| then Spaces(width - |s|) + s else s
  }

  /** What a directive prints when the arguments are used up. */
  function Missing(verb: char): string {
    "%!" + [verb] + "(MISSING)"
  }

  /** What a verb that does not apply to strings prints: the verb, the
      type and the argument, still padded to the width. */
  function BadVerb(verb: char, width: nat, arg: string): string {
    "%!" + [verb] + "(string=" + Pad(arg, width) + ")"
  }

  /** One directive applied to a string argument. */
  function StringVerb(width: nat, verb: char, arg: string): string {
    if verb == 's' || verb == 'v' then Pad(arg, width) else BadVerb(verb, width, arg)
  }

  /** What is appended for arguments no directive consumed. */
  function Extra(args: seq<string>): string
    decreases |args|
  {
    if |args| == 0 then ""
    else "string=" + args[0] + (if |args| > 1 then ", " + Extra(args[1..]) else "")
  }

  /** `fmt.Sprintf(format, args...)` for a format already cut into pieces. */
  function Render(pieces: seq<Piece>, args: seq<string>): string
    requires Modelled(pieces)
    decreases |pieces|
  {
    if |pieces| == 0 then
      if |args| == 0 then "" else "%!(EXTRA " + Extra(args) + ")"
    else match pieces[0]
      case Text(t) => t + Render(pieces[1..], args)
      case Verb(w, v) =>
        if v == '%' then "%" + Render(pieces[1..], args)
        else if |args| == 0 then Missing(v) + Render(pieces[1..], args)
        else StringVerb(w, v, args[0]) + Render(pieces[1..], args[1..])
  }

  /** Rendering peels off one piece at a time. */
  lemma RenderCons(p: Piece, rest: seq<Piece>, args: seq<string>)
    requires Modelled([p] + rest)
    ensures Modelled(rest)
    ensures p.Text? ==> Render([p] + rest, args) == p.text + Render(rest, args)
    ensures p.Verb? && p.verb != '%' && |args| == 0 ==>
      Render([p] + rest, args) == Missing(p.verb) + Render(rest, args)
    ensures p.Verb? && p.verb != '%' && |args| > 0 ==>
      Render([p] + rest, args) == StringVerb(p.width, p.verb, args[0]) + Render(rest, args[1..])
  {
    assert ([p] + rest)[1..] == rest;
    assert forall k :: 0 <= k < |rest| ==> rest[k] == ([p] + rest)[k + 1];
  }

  /** Text alone, with every argument consumed, renders as itself. */
  lemma RenderText(t: string)
    ensures Modelled([Text(t)]) && Render([Text(t)], []) == t
  {
    assert [Text(t)][1..] == [];
  }
}
