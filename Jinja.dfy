/** The part of Jinja2 the stub templates use: a template is literal text
    interleaved with `{{ value }}` substitutions, and with autoescape on every
    substituted value (a filter's result included) is HTML-escaped. */
module Jinja {
  import opened Text

  datatype Piece = Lit(text: string) | Val(value: string)

  /** A piece as it appears in the output. */
  function Show(p: Piece): (r: string)
    ensures p.Lit? ==> r == p.text
    ensures p.Val? ==> r == Escape(p.value)
  {
    match p
    case Lit(t) => t
    case Val(v) => Escape(v)
  }

  /** `Template.render`: every piece shown, in order. */
  function Fill(pieces: seq<Piece>): string {
    if pieces == [] then "" else Show(pieces[0]) + Fill(pieces[1..])
  }

  lemma {:induction false} FillConcat(a: seq<Piece>, b: seq<Piece>)
    ensures Fill(a + b) == Fill(a) + Fill(b)
    decreases |a|
  {
    if a == [] {
      assert a + b == b;
    } else {
      assert (a + b)[1..] == a[1..] + b;
      FillConcat(a[1..], b);
    }
  }

  lemma FillCons(a: Piece, rest: seq<Piece>)
    ensures Fill([a] + rest) == Show(a) + Fill(rest)
  {
    assert ([a] + rest)[1..] == rest;
  }

  lemma Fill3(a: Piece, b: Piece, c: Piece)
    ensures Fill([a, b, c]) == Show(a) + Show(b) + Show(c)
  {
    FillCons(c, []);
    FillCons(b, [c]);
    FillCons(a, [b, c]);
    assert [c] + [] == [c] && [b] + [c] == [b, c] && [a] + [b, c] == [a, b, c];
    assert Show(c) + "" == Show(c);
    AppendAssoc(Show(a), Show(b), Show(c));
  }

  lemma Fill4(a: Piece, b: Piece, c: Piece, d: Piece)
    ensures Fill([a, b, c, d]) == Show(a) + Show(b) + Show(c) + Show(d)
  {
    Fill3(b, c, d);
    FillCons(a, [b, c, d]);
    assert [a] + [b, c, d] == [a, b, c, d];
    AppendAssoc(Show(a), Show(b) + Show(c), Show(d));
    AppendAssoc(Show(a), Show(b), Show(c));
  }

  lemma Fill7(a: Piece, b: Piece, c: Piece, d: Piece, e: Piece, f: Piece, g: Piece)
    ensures Fill([a, b, c, d, e, f, g])
         == Show(a) + Show(b) + Show(c) + Show(d) + Show(e) + Show(f) + Show(g)
  {
    Fill4(a, b, c, d);
    Fill3(e, f, g);
    FillConcat([a, b, c, d], [e, f, g]);
    assert [a, b, c, d] + [e, f, g] == [a, b, c, d, e, f, g];
    JoinThree(Show(a) + Show(b) + Show(c) + Show(d), Show(e), Show(f), Show(g));
  }

  lemma JoinThree(x: string, e: string, f: string, g: string)
    ensures x + (e + f + g) == x + e + f + g
  {
    AppendAssoc(x, e + f, g);
    AppendAssoc(x, e, f);
  }

  /** Substituting values that hold none of the five escaped characters
      leaves them as they are. */
  predicate Plain(s: string) {
    forall i :: 0 <= i < |s| ==> !IsSpecial(s[i])
  }
}
