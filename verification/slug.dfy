/**
  The `anchor` helper of the single-page shell: a section label becomes a
  same-page fragment id by replacing every maximal run of whitespace with one
  hyphen, as `text.replace(/\s+/g, "-")` does.

  `Anchor` follows the regular-expression engine: scanning left to right, at a
  whitespace character it matches the longest whitespace run (`\s+` is greedy),
  emits one hyphen and resumes after the run; any other character is copied.
  `Fields` and `Join` are an independent reference reading of the same string,
  `s.split(/\s+/).join("-")`, built one character at a time.
 */
module Slug {

  /** `\s` of an ECMAScript regular expression: the WhiteSpace code points
      (tab, vertical tab, form feed, space, no-break space, the byte order
      mark and the space separators of Unicode) and the LineTerminator code
      points (line feed, carriage return, line and paragraph separator).
      The code points from tab to carriage return are tab, line feed, vertical
      tab, form feed and carriage return. */
  predicate IsWs(c: char) {
    if c <= ' ' then c == ' ' || '\t' <= c <= '\r'
    else if c < '\U{1680}' then c == '\U{00A0}'
    else if c < '\U{2000}' then c == '\U{1680}'
    else
      || c <= '\U{200A}'
      || c == '\U{2028}' || c == '\U{2029}' || c == '\U{202F}' || c == '\U{205F}'
      || c == '\U{3000}' || c == '\U{FEFF}'
  }

  /** The replacement text of the `replace` call. */
  const Hyphen: char := '-'

  /** No character of `s` is whitespace. */
  predicate NoWs(s: string) {
    forall i :: 0 <= i < |s| ==> !IsWs(s[i])
  }

  /** Every character of `s` is whitespace. */
  predicate AllWs(s: string) {
    forall i :: 0 <= i < |s| ==> IsWs(s[i])
  }

  /** Length of the greedy match of `\s` repeated at the start of `s`
      (zero when `s` does not start with whitespace). */
  function WsRun(s: string): (n: nat)
    ensures n <= |s|
    ensures AllWs(s[..n])
    ensures n < |s| ==> !IsWs(s[n])
  {
    if s == [] || !IsWs(s[0]) then 0
    else
      var m := WsRun(s[1..]);
      assert s[..1 + m] == [s[0]] + s[1..][..m];
      1 + m
  }

  /** `anchor(text)`: each maximal whitespace run becomes one hyphen. */
  function Anchor(s: string): (r: string)
    ensures NoWs(r)
    ensures |r| <= |s|
    decreases |s|
  {
    if s == [] then []
    else if IsWs(s[0]) then
      [Hyphen] + Anchor(s[WsRun(s)..])
    else [s[0]] + Anchor(s[1..])
  }

  // ---------------------------------------------------------------------
  // Reference reading: split on whitespace runs, then join with a hyphen.
  // ---------------------------------------------------------------------

  /** The fields of `s.split(/\s+/)`: the maximal whitespace-free pieces
      between runs, with an empty first (last) field when `s` starts (ends)
      with whitespace. Built character by character: a whitespace character
      followed by more whitespace belongs to the same separator. */
  function Fields(s: string): (fs: seq<string>)
    ensures |fs| >= 1
    ensures forall k :: 0 <= k < |fs| ==> NoWs(fs[k])
  {
    if s == [] then [[]]
    else
      var rest := Fields(s[1..]);
      if !IsWs(s[0]) then [[s[0]] + rest[0]] + rest[1..]
      else if |s| > 1 && IsWs(s[1]) then rest
      else [[]] + rest
  }

  /** `fs.join(sep)` for a non-empty list of strings. */
  function Join(fs: seq<string>, sep: char): string
    requires |fs| >= 1
  {
    if |fs| == 1 then fs[0] else fs[0] + [sep] + Join(fs[1..], sep)
  }

  /** Concatenation of a list of strings. */
  function Flatten(fs: seq<string>): string {
    if fs == [] then [] else fs[0] + Flatten(fs[1..])
  }

  /** The non-whitespace characters of `s`, in order. */
  function NonWs(s: string): string {
    if s == [] then []
    else (if IsWs(s[0]) then [] else [s[0]]) + NonWs(s[1..])
  }

  /** Number of maximal whitespace runs of `s`, counted by their last
      character: a whitespace character that is not followed by whitespace. */
  function Runs(s: string): nat {
    if s == [] then 0
    else (if IsWs(s[0]) && (|s| == 1 || !IsWs(s[1])) then 1 else 0) + Runs(s[1..])
  }

  // ---------------------------------------------------------------------
  // Lemmas
  // ---------------------------------------------------------------------

  /** A whitespace run at the front of `s` is one separator of the split. */
  lemma {:induction false} FieldsSkipRun(s: string)
    requires |s| > 0 && IsWs(s[0])
    ensures Fields(s) == [[]] + Fields(s[WsRun(s)..])
    decreases |s|
  {
    var t := s[1..];
    if |s| > 1 && IsWs(s[1]) {
      FieldsSkipRun(t);
      assert WsRun(s) == 1 + WsRun(t);
      assert s[WsRun(s)..] == t[WsRun(t)..];
    } else {
      assert WsRun(s) == 1;
    }
  }

  lemma JoinCons(c: char, fs: seq<string>, sep: char)
    requires |fs| >= 1
    ensures Join([[c] + fs[0]] + fs[1..], sep) == [c] + Join(fs, sep)
  {
    var gs := [[c] + fs[0]] + fs[1..];
    assert gs[1..] == fs[1..];
  }

  /** `s.replace(/\s+/g, "-")` equals `s.split(/\s+/).join("-")`: the hyphens
      of the anchor are exactly the separators between the fields of `s`. */
  lemma {:induction false} AnchorIsSplitJoin(s: string)
    ensures Anchor(s) == Join(Fields(s), Hyphen)
    decreases |s|
  {
    if s == [] {
    } else if IsWs(s[0]) {
      var n := WsRun(s);
      FieldsSkipRun(s);
      AnchorIsSplitJoin(s[n..]);
      var fs := [[]] + Fields(s[n..]);
      assert fs[1..] == Fields(s[n..]);
    } else {
      var rest := Fields(s[1..]);
      AnchorIsSplitJoin(s[1..]);
      JoinCons(s[0], rest, Hyphen);
    }
  }

  /** Concatenating the fields gives back the non-whitespace characters. */
  lemma {:induction false} FieldsFlatten(s: string)
    ensures Flatten(Fields(s)) == NonWs(s)
  {
    if s != [] {
      var rest := Fields(s[1..]);
      FieldsFlatten(s[1..]);
      assert Flatten(rest) == rest[0] + Flatten(rest[1..]);
      if !IsWs(s[0]) {
        var fs := [[s[0]] + rest[0]] + rest[1..];
        assert fs[1..] == rest[1..];
      } else if |s| > 1 && IsWs(s[1]) {
      } else {
        var fs := [[]] + rest;
        assert fs[1..] == rest;
      }
    }
  }

  /** There is one more field than there are whitespace runs. */
  lemma {:induction false} FieldsCount(s: string)
    ensures |Fields(s)| == Runs(s) + 1
  {
    if s != [] {
      FieldsCount(s[1..]);
    }
  }

  lemma {:induction false} JoinLength(fs: seq<string>, sep: char)
    requires |fs| >= 1
    ensures |Join(fs, sep)| == |Flatten(fs)| + |fs| - 1
  {
    if |fs| > 1 {
      JoinLength(fs[1..], sep);
    }
  }

  /** Deleting the hyphens the anchor inserted gives back exactly the
      non-whitespace characters of the label, in order, and one hyphen is
      inserted per whitespace run. */
  lemma AnchorKeepsNonWs(s: string)
    ensures var fs := Fields(s);
      && Anchor(s) == Join(fs, Hyphen)
      && Flatten(fs) == NonWs(s)
      && |fs| == Runs(s) + 1
  {
    AnchorIsSplitJoin(s);
    FieldsFlatten(s);
    FieldsCount(s);
  }

  /** The anchor is as long as the non-whitespace characters plus one per
      run, which is at most the length of the label. */
  lemma AnchorLength(s: string)
    ensures |Anchor(s)| == |NonWs(s)| + Runs(s) <= |s|
  {
    AnchorKeepsNonWs(s);
    JoinLength(Fields(s), Hyphen);
  }

  /** The anchor leaves a label alone exactly when it has no whitespace. */
  lemma {:induction false} AnchorIdentity(s: string)
    ensures Anchor(s) == s <==> NoWs(s)
  {
    if s != [] && NoWs(s) {
      AnchorIdentity(s[1..]);
      assert NoWs(s[1..]);
    }
  }

  /** Applying the anchor twice is the same as applying it once. */
  lemma AnchorIdempotent(s: string)
    ensures Anchor(Anchor(s)) == Anchor(s)
  {
    AnchorIdentity(Anchor(s));
  }

  /** A whitespace-free prefix is copied unchanged. */
  lemma {:induction false} AnchorAppendWord(w: string, s: string)
    requires NoWs(w)
    ensures Anchor(w + s) == w + Anchor(s)
  {
    if w != [] {
      var u := w + s;
      assert NoWs(w[1..]);
      AnchorAppendWord(w[1..], s);
      assert u[0] == w[0] && !IsWs(u[0]);
      assert u[1..] == w[1..] + s;
      assert Anchor(u) == [w[0]] + Anchor(w[1..] + s);
      assert [w[0]] + (w[1..] + Anchor(s)) == w + Anchor(s);
    } else {
      assert w + s == s;
    }
  }

  /** The greedy match at the front of `run + s` is exactly `run`. */
  lemma {:induction false} WsRunExact(run: string, s: string)
    requires AllWs(run)
    requires s == [] || !IsWs(s[0])
    ensures WsRun(run + s) == |run|
  {
    if run == [] {
      assert run + s == s;
    } else {
      assert (run + s)[1..] == run[1..] + s;
      WsRunExact(run[1..], s);
    }
  }

  /** A whole whitespace run at the front becomes a single hyphen. */
  lemma AnchorAppendRun(run: string, s: string)
    requires |run| > 0 && AllWs(run)
    requires s == [] || !IsWs(s[0])
    ensures Anchor(run + s) == [Hyphen] + Anchor(s)
  {
    var u := run + s;
    WsRunExact(run, s);
    assert u[0] == run[0] && IsWs(u[0]);
    assert u[WsRun(u)..] == s;
  }

  /** Two words separated by one whitespace run: `anchor("a  b") == "a-b"`. */
  lemma AnchorTwoWords(a: string, run: string, b: string)
    requires NoWs(a) && NoWs(b)
    requires |run| > 0 && AllWs(run)
    ensures Anchor(a + run + b) == a + [Hyphen] + b
  {
    var rb := run + b;
    assert a + run + b == a + rb;
    AnchorAppendWord(a, rb);
    assert Anchor(a + rb) == a + Anchor(rb);
    AnchorAppendRun(run, b);
    assert Anchor(rb) == [Hyphen] + Anchor(b);
    AnchorIdentity(b);
    assert Anchor(b) == b;
    assert a + ([Hyphen] + b) == a + [Hyphen] + b;
  }

  /** The two words of the label "Conoce TechNova". */
  const Conoce: string := "Conoce"
  const TechNova: string := "TechNova"

  /** Worked case: the label "Conoce TechNova" gets the id "Conoce-TechNova". */
  lemma AnchorSingleSpace()
    ensures Anchor("Conoce TechNova") == "Conoce-TechNova"
  {
    AnchorTwoWords(Conoce, " ", TechNova);
    assert Conoce + " " + TechNova == "Conoce TechNova";
    assert Conoce + "-" + TechNova == "Conoce-TechNova";
  }

  /** Worked case: a doubled space still becomes one hyphen. */
  lemma AnchorDoubleSpace()
    ensures Anchor("a  b") == "a-b"
  {
    AnchorTwoWords("a", "  ", "b");
    assert "a" + "  " + "b" == "a  b";
    assert "a" + [Hyphen] + "b" == "a-b";
  }

  /** Labels that differ only inside a whitespace run share an anchor:
      the anchor is not injective and nothing defends against the clash. */
  lemma AnchorCollision()
    ensures Conoce + " " + TechNova != Conoce + "\t" + TechNova
    ensures Anchor(Conoce + " " + TechNova) == Anchor(Conoce + "\t" + TechNova)
  {
    assert (Conoce + " " + TechNova)[|Conoce|] != (Conoce + "\t" + TechNova)[|Conoce|];
    AnchorTwoWords(Conoce, " ", TechNova);
    AnchorTwoWords(Conoce, "\t", TechNova);
  }

  // ---------------------------------------------------------------------
  // Round trip for plainly spelt labels
  // ---------------------------------------------------------------------

  /** Position `i` of `s` holds no hyphen, and whitespace there is an
      ordinary space not followed by more whitespace. */
  predicate PlainAt(s: string, i: int)
    requires 0 <= i < |s|
  {
    s[i] != Hyphen && (IsWs(s[i]) ==> s[i] == ' ' && (i + 1 == |s| || !IsWs(s[i + 1])))
  }

  /** A label with no hyphen whose whitespace is single ordinary spaces. */
  predicate Plain(s: string) {
    forall i :: 0 <= i < |s| ==> PlainAt(s, i)
  }

  /** Reads a fragment id back as a label: every hyphen becomes a space. */
  function Unanchor(r: string): (s: string)
    ensures |s| == |r|
    ensures forall i :: 0 <= i < |r| ==> s[i] == (if r[i] == Hyphen then ' ' else r[i])
  {
    if r == [] then []
    else [if r[0] == Hyphen then ' ' else r[0]] + Unanchor(r[1..])
  }

  /** On plainly spelt labels the anchor loses nothing. */
  lemma {:induction false} AnchorRoundTrip(s: string)
    requires Plain(s)
    ensures Unanchor(Anchor(s)) == s
    decreases |s|
  {
    if s != [] {
      var t := s[1..];
      assert Plain(t) by {
        forall i | 0 <= i < |t|
          ensures PlainAt(t, i)
        {
          assert PlainAt(s, i + 1);
        }
      }
      AnchorRoundTrip(t);
      assert PlainAt(s, 0);
      if IsWs(s[0]) {
        assert WsRun(s) == 1;
        assert Anchor(s) == [Hyphen] + Anchor(t);
      } else {
        assert Anchor(s) == [s[0]] + Anchor(t);
      }
    }
  }

  /** On plainly spelt labels the anchor keeps the length. */
  lemma AnchorLengthPlain(s: string)
    requires Plain(s)
    ensures |Anchor(s)| == |s|
  {
    AnchorRoundTrip(s);
  }

  /** Distinct plainly spelt labels get distinct anchors. */
  lemma AnchorInjectiveOnPlain(s: string, t: string)
    requires Plain(s) && Plain(t) && s != t
    ensures Anchor(s) != Anchor(t)
  {
    AnchorRoundTrip(s);
    AnchorRoundTrip(t);
  }
}
