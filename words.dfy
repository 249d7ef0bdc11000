/** Ruby's awk-style `String#split(' ')`: the string is cut at runs of
    whitespace, and leading, trailing and repeated separators produce no
    empty fields. */
module Words {

  /** The characters that `split(' ')` treats as separators. */
  predicate IsSpace(c: char) {
    c == ' ' || c == '\t' || c == '\n' || c == '\U{0B}' || c == '\U{0C}' || c == '\r'
  }

  /** A field: a non-empty string without separators. */
  predicate IsField(w: string) {
    |w| > 0 && forall i :: 0 <= i < |w| ==> !IsSpace(w[i])
  }

  predicate AllFields(ws: seq<string>) {
    forall i :: 0 <= i < |ws| ==> IsField(ws[i])
  }

  /** The longest prefix of `s` that holds no separator. */
  function Field(s: string): (w: string)
    ensures |w| <= |s| && w == s[..|w|]
    ensures forall i :: 0 <= i < |w| ==> !IsSpace(w[i])
    ensures |w| < |s| ==> IsSpace(s[|w|])
  {
    if s == [] || IsSpace(s[0]) then [] else [s[0]] + Field(s[1..])
  }

  /** `s.split(' ')`. */
  function Split(s: string): (fields: seq<string>)
    ensures AllFields(fields)
    decreases |s|
  {
    if s == [] then []
    else if IsSpace(s[0]) then Split(s[1..])
    else
      var w := Field(s);
      [w] + Split(s[|w|..])
  }

  /** The characters of `s` that are not separators, in order. */
  function Visible(s: string): string {
    if s == [] then [] else (if IsSpace(s[0]) then [] else [s[0]]) + Visible(s[1..])
  }

  /** The concatenation of a list of strings. */
  function Concat(ws: seq<string>): string {
    if ws == [] then [] else ws[0] + Concat(ws[1..])
  }

  /** The fields joined by single spaces (`ws.join(' ')`). */
  function Join(ws: seq<string>): string {
    if |ws| == 0 then []
    else if |ws| == 1 then ws[0]
    else ws[0] + " " + Join(ws[1..])
  }

  /** The input with its whitespace normalised, read one character at a
      time: leading separators are skipped, each later run of separators
      becomes one space if another visible character follows it, and
      trailing separators disappear. */
  function Squeeze(s: string): string {
    if s == [] then []
    else if IsSpace(s[0]) then Squeeze(s[1..])
    else [s[0]] + SqueezeAfter(s[1..], false)
  }

  /** `Squeeze` once a visible character has been written; `gap` records
      that separators were seen since the last one. */
  function SqueezeAfter(s: string, gap: bool): string {
    if s == [] then []
    else if IsSpace(s[0]) then SqueezeAfter(s[1..], true)
    else (if gap then " " else []) + [s[0]] + SqueezeAfter(s[1..], false)
  }

  lemma {:induction false} VisibleAppend(a: string, b: string)
    ensures Visible(a + b) == Visible(a) + Visible(b)
    decreases |a|
  {
    if a == [] {
      assert a + b == b;
    } else {
      assert (a + b)[0] == a[0];
      assert (a + b)[1..] == a[1..] + b;
      VisibleAppend(a[1..], b);
    }
  }

  lemma {:induction false} VisibleOfNoSpace(w: string)
    requires forall i :: 0 <= i < |w| ==> !IsSpace(w[i])
    ensures Visible(w) == w
    decreases |w|
  {
    if w != [] {
      VisibleOfNoSpace(w[1..]);
    }
  }

  /** Splitting loses exactly the separators: the fields, put back together,
      are the visible characters of the input. */
  lemma {:induction false} SplitKeepsVisible(s: string)
    ensures Concat(Split(s)) == Visible(s)
    decreases |s|
  {
    if s == [] {
    } else if IsSpace(s[0]) {
      SplitKeepsVisible(s[1..]);
    } else {
      var w := Field(s);
      var rest := s[|w|..];
      assert s == w + rest;
      SplitKeepsVisible(rest);
      VisibleAppend(w, rest);
      VisibleOfNoSpace(w);
      var fs := [w] + Split(rest);
      assert fs[1..] == Split(rest);
    }
  }

  /** A field followed by nothing or by a separator is read back whole. */
  lemma {:induction false} FieldOfField(w: string, t: string)
    requires IsField(w)
    requires t == [] || IsSpace(t[0])
    ensures Field(w + t) == w
    decreases |w|
  {
    assert (w + t)[0] == w[0];
    assert (w + t)[1..] == w[1..] + t;
    if |w| == 1 {
      assert w[1..] + t == t;
      assert w == [w[0]];
    } else {
      FieldOfField(w[1..], t);
      assert w == [w[0]] + w[1..];
    }
  }

  /** Joining fields with single spaces and splitting again gives the fields back. */
  lemma {:induction false} SplitJoin(ws: seq<string>)
    requires AllFields(ws)
    ensures Split(Join(ws)) == ws
    decreases |ws|
  {
    if |ws| == 1 {
      var w := ws[0];
      FieldOfField(w, []);
      assert w + [] == w;
      assert w[|w|..] == [];
    } else if |ws| > 1 {
      var w := ws[0];
      var j := Join(ws[1..]);
      var s := w + " " + j;
      assert s == w + (" " + j);
      FieldOfField(w, " " + j);
      assert s[|w|..] == " " + j;
      assert (" " + j)[1..] == j;
      SplitJoin(ws[1..]);
      assert Split(s[|w|..]) == ws[1..];
    }
  }

  /** Squeezing goes through a field character by character. */
  lemma {:induction false} SqueezeAfterField(w: string, t: string, gap: bool)
    requires IsField(w)
    requires t == [] || IsSpace(t[0])
    ensures SqueezeAfter(w + t, gap) == (if gap then " " else []) + w + SqueezeAfter(t, false)
    decreases |w|
  {
    assert (w + t)[0] == w[0];
    assert (w + t)[1..] == w[1..] + t;
    if |w| == 1 {
      assert w[1..] + t == t;
      assert w == [w[0]];
    } else {
      SqueezeAfterField(w[1..], t, false);
      assert w == [w[0]] + w[1..];
    }
  }

  /** Joining a field with the fields that follow it. */
  lemma JoinCons(w: string, ws: seq<string>)
    ensures Join([w] + ws) == if ws == [] then w else w + " " + Join(ws)
  {
    assert ([w] + ws)[0] == w;
    assert ([w] + ws)[1..] == ws;
  }

  lemma {:induction false} JoinSplitAfter(s: string, gap: bool)
    ensures SqueezeAfter(s, gap) ==
      if Split(s) == [] then [] else (if gap || IsSpace(s[0]) then " " else []) + Join(Split(s))
    decreases |s|
  {
    if s == [] {
    } else if IsSpace(s[0]) {
      JoinSplitAfter(s[1..], true);
    } else {
      var w := Field(s);
      var rest := s[|w|..];
      assert s == w + rest;
      SqueezeAfterField(w, rest, gap);
      JoinSplitAfter(rest, false);
      JoinCons(w, Split(rest));
    }
  }

  /** Splitting and joining with single spaces is squeezing: the fields
      break exactly at the runs of separators. */
  lemma {:induction false} JoinSplit(s: string)
    ensures Join(Split(s)) == Squeeze(s)
    decreases |s|
  {
    if s == [] {
    } else if IsSpace(s[0]) {
      JoinSplit(s[1..]);
    } else {
      var w := Field(s);
      var rest := s[|w|..];
      assert s == w + rest;
      assert (w + rest)[0] == w[0];
      assert (w + rest)[1..] == w[1..] + rest;
      if |w| == 1 {
        assert w[1..] + rest == rest;
      } else {
        SqueezeAfterField(w[1..], rest, false);
      }
      assert w == [w[0]] + w[1..];
      assert Squeeze(s) == w + SqueezeAfter(rest, false);
      JoinSplitAfter(rest, false);
      JoinCons(w, Split(rest));
    }
  }

  /** `Split` is the only list of fields that joins to the squeezed input. */
  lemma SplitDetermined(s: string, ws: seq<string>)
    requires AllFields(ws)
    requires Join(ws) == Squeeze(s)
    ensures ws == Split(s)
  {
    SplitJoin(ws);
    JoinSplit(s);
    SplitJoin(Split(s));
  }
}
