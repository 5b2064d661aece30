/**
 * The quoted-field splitter of code/Supervisor.cpp (`checkField`, `removeQuotes`): one CSV
 * field is read with `getline(iss, field, ',')`, and a field that opens with a double quote is
 * glued back together, commas included, up to the piece that closes the quote.
 */
module Fields {
  import opened Wrappers

  /** An `istringstream`: what is left to read, and whether `eof()` holds. */
  datatype Stream = Stream(rest: string, eof: bool)

  /** The position of the first comma in s. */
  function FirstComma(s: string): (k: nat)
    requires ',' in s
    ensures k < |s| && s[k] == ',' && ',' !in s[..k]
  {
    if s[0] == ',' then 0 else 1 + FirstComma(s[1..])
  }

  /**
   * `getline(iss, field, ',')` on a stream that is not at its end: the characters up to the
   * next comma, which is consumed; with no comma left, the rest, and the stream reaches its end.
   */
  function GetLine(st: Stream): (r: (string, Stream))
    requires !st.eof
    ensures ',' !in r.0
    ensures r.1.eof ==> r.0 == st.rest && r.1.rest == []
    ensures !r.1.eof ==> st.rest == r.0 + [','] + r.1.rest
  {
    if ',' in st.rest then
      var k := FirstComma(st.rest);
      assert st.rest == st.rest[..k] + [','] + st.rest[k + 1..];
      (st.rest[..k], Stream(st.rest[k + 1..], false))
    else
      (st.rest, Stream([], true))
  }

  /** `getline` on a text whose first comma is at k splits it there. */
  lemma {:induction false} SplitAt(s: string, k: nat)
    requires k < |s| && s[k] == ',' && ',' !in s[..k]
    ensures ',' in s && FirstComma(s) == k
    ensures GetLine(Stream(s, false)) == (s[..k], Stream(s[k + 1..], false))
  {
    assert s[k] in s;
    if k > 0 {
      assert s[0] == s[..k][0];
      assert s[1..][..k - 1] == s[1..k];
      assert ',' !in s[1..k] by {
        assert forall c :: c in s[1..k] ==> c in s[..k];
      }
      SplitAt(s[1..], k - 1);
    }
  }

  /** What the stream can still yield: one step per `getline` until its end. */
  function Left(st: Stream): nat {
    |st.rest| + if st.eof then 0 else 1
  }

  /** `getline` always brings the stream closer to its end. */
  lemma GetLineAdvances(st: Stream)
    requires !st.eof
    ensures Left(GetLine(st).1) < Left(st)
  {
  }

  /** Whether s ends with a double quote (`s.back() == '\"'`, s not empty). */
  predicate Closed(s: string) {
    s != [] && s[|s| - 1] == '"'
  }

  /** `s.substr(0, s.length() - 1)`: all but the last character; on "" the length wraps to npos. */
  function DropLast(s: string): (r: string)
    ensures s != [] ==> s == r + [s[|s| - 1]]
    ensures s == [] ==> r == []
  {
    if s == [] then [] else s[..|s| - 1]
  }

  /**
   * `removeQuotes` as written: the loop test `!iss.eof() && s.back() != '\"'` calls `back()` on
   * an empty s when the quoted text starts with a comma; that undefined step is `None`.
   */
  function UnquoteAsWritten(s: string, st: Stream): (r: Option<(string, Stream)>)
    decreases Left(st)
  {
    if st.eof then Some((DropLast(s), st))
    else if s == [] then None
    else if s[|s| - 1] == '"' then Some((DropLast(s), st))
    else
      GetLineAdvances(st);
      var (f, st') := GetLine(st);
      UnquoteAsWritten(s + [','] + f, st')
  }

  /**
   * The loop of `removeQuotes` as evidently intended: while the stream has more and s is not
   * closed by a quote (an empty s is not), read the next piece and glue it on after a comma;
   * then drop the closing quote.
   */
  function Unquote(s: string, st: Stream): (r: (string, Stream))
    decreases Left(st)
  {
    if st.eof || Closed(s) then (DropLast(s), st)
    else
      GetLineAdvances(st);
      var (f, st') := GetLine(st);
      Unquote(s + [','] + f, st')
  }

  /** Whenever the loop as written has a defined outcome, it agrees with the corrected one. */
  lemma {:induction false} UnquoteAgrees(s: string, st: Stream)
    requires UnquoteAsWritten(s, st).Some?
    ensures UnquoteAsWritten(s, st).value == Unquote(s, st)
    decreases Left(st)
  {
    if !st.eof && !Closed(s) {
      GetLineAdvances(st);
      var (f, st') := GetLine(st);
      UnquoteAgrees(s + [','] + f, st');
    }
  }

  /**
   * The quoted field `",x"` followed by another field: `getline` yields just the opening
   * quote, so the loop as written calls `back()` on the empty string, while the corrected loop
   * reads on and recovers ",x".
   */
  lemma LeadingCommaIsUndefined()
    ensures UnquoteAsWritten([], Stream("x\",B", false)).None?
    ensures Unquote([], Stream("x\",B", false)) == (",x", Stream("B", false))
  {
    var t := "x\",B";
    assert t[..2] == "x\"" && t[2] == ',' && t[3..] == "B";
    assert ',' !in t[..2];
    SplitAt(t, 2);
    assert [] + [','] + "x\"" == ",x\"";
    assert Closed(",x\"") && DropLast(",x\"") == ",x";
    assert Unquote([], Stream(t, false)) == Unquote(",x\"", Stream("B", false));
  }

  /**
   * `removeQuotes(iss, field)` for a field that opens with a quote: drop the opening quote,
   * glue on pieces until one closes the quote or the stream ends, then drop the last character.
   */
  method RemoveQuotes(st: Stream, field: string) returns (r: string, st': Stream)
    requires field != []
    ensures (r, st') == Unquote(field[1..], st)
  {
    var s := field[1..];
    st' := st;
    while !st'.eof && !Closed(s)
      invariant Unquote(s, st') == Unquote(field[1..], st)
      decreases Left(st')
    {
      GetLineAdvances(st');
      var piece;
      piece, st' := GetLine(st').0, GetLine(st').1;
      s := s + [','] + piece;
    }
    r := DropLast(s);
  }

  /**
   * What `checkField(iss, field)` leaves in `field` and in the stream: the next piece, glued
   * back together when it opens with a quote. On a stream at its end `getline` fails and
   * `field` keeps its value, which is still tested for a quote and unquoted if it opens with one.
   * An empty field is not tested: `field[0]` on "" is the terminating '\0'.
   */
  function Field(st: Stream, field: string): (r: (string, Stream)) {
    var (f, st') := if st.eof then (field, st) else GetLine(st);
    if f != [] && f[0] == '"' then Unquote(f[1..], st') else (f, st')
  }

  /** `checkField(iss, field)`. */
  method CheckField(st: Stream, field: string) returns (field': string, st': Stream)
    ensures (field', st') == Field(st, field)
  {
    if st.eof {
      field', st' := field, st;
    } else {
      field', st' := GetLine(st).0, GetLine(st).1;
    }
    if field' != [] && field'[0] == '"' {
      field', st' := RemoveQuotes(st', field');
    }
  }

  /**
   * On a stream at its end nothing is read: a retained field that opens with a quote loses
   * that quote and its last character, any other field is kept, and the stream stays at its end.
   */
  lemma ExhaustedField(st: Stream, field: string)
    requires st.eof
    ensures field != [] && field[0] == '"' ==> Field(st, field) == (DropLast(field[1..]), st)
    ensures !(field != [] && field[0] == '"') ==> Field(st, field) == (field, st)
  {
  }

  /**
   * A row one field short after a row whose quoted field was `""STANDARDx"`: the retained
   * `"STANDARDx` is unquoted again, to `STANDARD`.
   */
  lemma ExhaustedQuotedField()
    ensures Field(Stream([], true), "\"STANDARDx") == ("STANDARD", Stream([], true))
  {
    ExhaustedField(Stream([], true), "\"STANDARDx");
    assert DropLast("STANDARDx") == "STANDARD";
  }

  /** A field with no comma that does not open with a quote is read verbatim up to the comma. */
  lemma PlainFieldRoundTrip(f: string, rest: string, field: string)
    requires ',' !in f && (f == [] || f[0] != '"')
    ensures Field(Stream(f + [','] + rest, false), field) == (f, Stream(rest, false))
  {
    var s := f + [','] + rest;
    assert s[..|f|] == f && s[|f| + 1..] == rest;
    SplitAt(s, |f|);
  }

  /** The two sides of g's comma at k, glued back together with a comma, give g. */
  lemma Resplit(g: string, k: nat)
    requires k < |g| && g[k] == ','
    ensures g[..k] + [','] + g[k + 1..] == g
  {
  }

  /** Gluing the two sides of g's comma at k back together after s and a comma gives s, a comma and g. */
  lemma Reglue(s: string, g: string, k: nat)
    requires k < |g| && g[k] == ','
    ensures s + [','] + g[..k] + [','] + g[k + 1..] == s + [','] + g
  {
    assert g == g[..k] + [','] + g[k + 1..];
  }

  /**
   * Gluing on the pieces of g, a text without quotes followed by the closing quote and a
   * comma, restores s, a comma and g, and leaves the stream after that comma.
   */
  lemma {:induction false} UnquoteRestores(s: string, g: string, rest: string)
    requires '"' !in s && '"' !in g
    ensures Unquote(s, Stream(g + "\"," + rest, false)) == (s + [','] + g, Stream(rest, false))
    decreases |g|
  {
    if ',' in g {
      var k := FirstComma(g);
      UnquoteNextPiece(s, g, rest, k);
      UnquoteRestores(s + [','] + g[..k], g[k + 1..], rest);
      Reglue(s, g, k);
    } else {
      UnquoteLastPiece(s, g, rest);
    }
  }

  /** Text without a quote does not close the quoted field. */
  lemma OpenWithoutQuote(s: string)
    requires '"' !in s
    ensures !Closed(s)
  {
    if s != [] {
      assert s[|s| - 1] in s;
    }
  }

  /** When g holds a comma, the next piece is g up to its first comma, glued onto s. */
  lemma UnquoteNextPiece(s: string, g: string, rest: string, k: nat)
    requires '"' !in s && '"' !in g && ',' in g && k == FirstComma(g)
    ensures Unquote(s, Stream(g + "\"," + rest, false)) ==
      Unquote(s + [','] + g[..k], Stream(g[k + 1..] + "\"," + rest, false))
    ensures '"' !in s + [','] + g[..k] && '"' !in g[k + 1..]
  {
    var w := g + "\"," + rest;
    OpenWithoutQuote(s);
    assert w[..k] == g[..k] && w[k] == ',' && w[k + 1..] == g[k + 1..] + "\"," + rest;
    SplitAt(w, k);
    assert forall c :: c in s + [','] + g[..k] ==> c in s || c == ',' || c in g;
    assert forall c :: c in g[k + 1..] ==> c in g;
  }

  /** When g holds no comma, the next piece is g and the closing quote, which ends the loop. */
  lemma UnquoteLastPiece(s: string, g: string, rest: string)
    requires '"' !in s && '"' !in g && ',' !in g
    ensures Unquote(s, Stream(g + "\"," + rest, false)) == (s + [','] + g, Stream(rest, false))
  {
    var w := g + "\"," + rest;
    var piece := g + "\"";
    OpenWithoutQuote(s);
    var n := |g| + 1;
    assert w == piece + [','] + rest;
    assert w[..n] == piece && w[n] == ',' && w[n + 1..] == rest;
    assert ',' !in w[..n] by {
      assert forall c :: c in piece ==> c in g || c == '"';
    }
    SplitAt(w, n);
    assert Closed(s + [','] + piece);
    assert DropLast(s + [','] + (g + "\"")) == s + [','] + g;
  }

  /** The quoted field's first piece ends at the first comma of f; the rest is glued back on. */
  lemma QuotedSplits(f: string, rest: string)
    requires '"' !in f && ',' in f
    ensures var w := "\"" + f + "\"," + rest; var k := FirstComma(f);
      GetLine(Stream(w, false)) == ("\"" + f[..k], Stream(f[k + 1..] + "\"," + rest, false))
  {
    var w := "\"" + f + "\"," + rest;
    var k := FirstComma(f);
    assert w[..k + 1] == "\"" + f[..k];
    assert w[k + 1] == ',';
    assert w[k + 2..] == f[k + 1..] + "\"," + rest;
    assert ',' !in w[..k + 1] by {
      assert forall c :: c in w[..k + 1] ==> c == '"' || c in f[..k];
    }
    SplitAt(w, k + 1);
  }

  /** A quoted field without a comma is its own first piece, closed by its quote. */
  lemma QuotedWhole(f: string, rest: string)
    requires '"' !in f && ',' !in f
    ensures var w := "\"" + f + "\"," + rest;
      GetLine(Stream(w, false)) == ("\"" + f + "\"", Stream(rest, false))
  {
    var w := "\"" + f + "\"," + rest;
    var n := |f| + 2;
    assert w[..n] == "\"" + f + "\"" && w[n] == ',' && w[n + 1..] == rest;
    assert ',' !in w[..n] by {
      assert forall c :: c in w[..n] ==> c == '"' || c in f;
    }
    SplitAt(w, n);
  }

  /**
   * A field without quotes, written between quotes, is read back as it was: its commas are
   * kept and both quotes dropped, and the stream stands after the comma that ends it.
   */
  lemma QuotedFieldRoundTrip(f: string, rest: string, field: string)
    requires '"' !in f
    ensures Field(Stream("\"" + f + "\"," + rest, false), field) == (f, Stream(rest, false))
  {
    if ',' in f {
      CommaFieldRoundTrip(f, rest, field);
    } else {
      WholeFieldRoundTrip(f, rest, field);
    }
  }

  /** The case of `QuotedFieldRoundTrip` where the field holds a comma. */
  lemma CommaFieldRoundTrip(f: string, rest: string, field: string)
    requires '"' !in f && ',' in f
    ensures Field(Stream("\"" + f + "\"," + rest, false), field) == (f, Stream(rest, false))
  {
    var k := FirstComma(f);
    QuotedSplits(f, rest);
    assert ("\"" + f[..k])[1..] == f[..k];
    assert '"' !in f[..k] && '"' !in f[k + 1..] by {
      assert forall c :: c in f[..k] || c in f[k + 1..] ==> c in f;
    }
    UnquoteRestores(f[..k], f[k + 1..], rest);
    Resplit(f, k);
  }

  /** The case of `QuotedFieldRoundTrip` where the field holds no comma. */
  lemma WholeFieldRoundTrip(f: string, rest: string, field: string)
    requires '"' !in f && ',' !in f
    ensures Field(Stream("\"" + f + "\"," + rest, false), field) == (f, Stream(rest, false))
  {
    QuotedWhole(f, rest);
    assert ("\"" + f + "\"")[1..] == f + "\"";
    assert Closed(f + "\"") && DropLast(f + "\"") == f;
  }
}
