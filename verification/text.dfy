/** The text operations the backend leans on: Python's notion of whitespace, `str.strip`,
    `" ".join(s.split())`, substring search, and containment up to whitespace. */
module Text {

  /** The characters `str.isspace`, `str.split` and the regular expression `\s` agree on. */
  predicate IsSpace(c: char) {
    var n := c as int;
    || 0x09 <= n <= 0x0D || 0x1C <= n <= 0x20 || n == 0x85 || n == 0xA0 || n == 0x1680
    || 0x2000 <= n <= 0x200A || n == 0x2028 || n == 0x2029 || n == 0x202F || n == 0x205F || n == 0x3000
  }

  predicate AllSpace(s: string) {
    forall k :: 0 <= k < |s| ==> IsSpace(s[k])
  }

  // ----- substrings

  predicate At(p: string, t: string, i: int) {
    0 <= i && i + |p| <= |t| && t[i..i + |p|] == p
  }

  /** Python's `p in t`. */
  predicate In(p: string, t: string) {
    exists i :: 0 <= i <= |t| && At(p, t, i)
  }

  lemma InFromParts(x: string, p: string, y: string)
    ensures In(p, x + p + y)
  {
    assert At(p, x + p + y, |x|);
  }

  lemma SliceIn(t: string, a: int, b: int)
    requires 0 <= a <= b <= |t|
    ensures In(t[a..b], t)
  {
    assert At(t[a..b], t, a);
  }

  lemma SliceOfSlice(t: string, a: int, b: int, i: int, j: int)
    requires 0 <= a <= b <= |t| && 0 <= i <= j <= b - a
    ensures t[a..b][i..j] == t[a + i..a + j]
  {
    var u, v := t[a..b][i..j], t[a + i..a + j];
    assert forall k :: 0 <= k < j - i ==> u[k] == v[k];
  }

  lemma InTransitive(p: string, q: string, t: string)
    requires In(p, q) && In(q, t)
    ensures In(p, t)
  {
    var i :| 0 <= i <= |q| && At(p, q, i);
    var j :| 0 <= j <= |t| && At(q, t, j);
    SliceOfSlice(t, j, j + |q|, i, i + |p|);
    assert At(p, t, j + i);
  }

  // ----- str.strip

  function StripLeft(s: string): string {
    if s != "" && IsSpace(s[0]) then StripLeft(s[1..]) else s
  }

  function StripRight(s: string): string {
    if s != "" && IsSpace(s[|s| - 1]) then StripRight(s[..|s| - 1]) else s
  }

  lemma {:induction false} StripLeftIs(s: string)
    ensures var r := StripLeft(s);
      |r| <= |s| && r == s[|s| - |r|..] && AllSpace(s[..|s| - |r|]) && (r != "" ==> !IsSpace(r[0]))
  {
    hide IsSpace;
    if s != "" && IsSpace(s[0]) {
      StripLeftIs(s[1..]);
      var r := StripLeft(s);
      assert s[..|s| - |r|] == [s[0]] + s[1..][..|s| - 1 - |r|];
    }
  }

  lemma {:induction false} StripRightIs(s: string)
    ensures var r := StripRight(s);
      |r| <= |s| && r == s[..|r|] && AllSpace(s[|r|..]) && (r != "" ==> !IsSpace(r[|r| - 1]))
  {
    hide IsSpace;
    if s != "" && IsSpace(s[|s| - 1]) {
      StripRightIs(s[..|s| - 1]);
      var r := StripRight(s);
      assert s[|r|..] == s[..|s| - 1][|r|..] + [s[|s| - 1]];
    }
  }

  function Strip(s: string): string {
    StripRight(StripLeft(s))
  }

  /** What stripping returns: the one slice with nothing but whitespace outside it and no
      whitespace at its ends. */
  lemma StripIsSlice(s: string) returns (a: int, b: int)
    ensures 0 <= a <= b <= |s| && Strip(s) == s[a..b]
    ensures AllSpace(s[..a]) && AllSpace(s[b..])
    ensures a < b ==> !IsSpace(s[a]) && !IsSpace(s[b - 1])
    ensures Strip(s) == "" <==> AllSpace(s)
  {
    hide IsSpace, AllSpace;
    var l := StripLeft(s);
    var m := StripRight(l);
    StripLeftIs(s);
    StripRightIs(l);
    a, b := |s| - |l|, |s| - |l| + |m|;
    hide StripLeft, StripRight;
    SliceOfSlice(s, a, |s|, 0, |m|);
    SliceOfSlice(s, a, |s|, |m|, |l|);
    assert m == s[a..b] && l[|m|..] == s[b..];
    OnlyInside(s, a, b);
  }

  lemma OnlyInside(s: string, a: int, b: int)
    requires 0 <= a <= b <= |s| && AllSpace(s[..a]) && AllSpace(s[b..])
    requires a < b ==> !IsSpace(s[a..b][0]) && !IsSpace(s[a..b][b - a - 1])
    ensures s[a..b] == "" <==> AllSpace(s)
    ensures a < b ==> !IsSpace(s[a]) && !IsSpace(s[b - 1])
  {
    hide IsSpace;
    if a == b {
      assert forall k :: 0 <= k < |s| ==> s[k] == if k < a then s[..a][k] else s[b..][k - b];
    } else {
      assert s[a..b][0] == s[a] && s[a..b][b - a - 1] == s[b - 1];
    }
  }

  lemma StripTrimmed(s: string)
    requires s != "" && !IsSpace(s[0]) && !IsSpace(s[|s| - 1])
    ensures Strip(s) == s
  {
    hide IsSpace;
  }

  // ----- " ".join(s.split())

  /** `s.split()`: the maximal whitespace-free runs, in order. */
  function Words(s: string): (ws: seq<string>)
    ensures s != "" && !IsSpace(s[0]) ==> ws != []
  {
    if s == "" then []
    else if IsSpace(s[0]) then Words(s[1..])
    else if |s| > 1 && !IsSpace(s[1]) then
      var ws := Words(s[1..]);
      [[s[0]] + ws[0]] + ws[1..]
    else [[s[0]]] + Words(s[1..])
  }

  function Join(ws: seq<string>): string {
    if ws == [] then "" else if |ws| == 1 then ws[0] else ws[0] + " " + Join(ws[1..])
  }

  function Normal(s: string): string {
    Join(Words(s))
  }

  function NonSpace(s: string): string {
    if s == "" then "" else (if IsSpace(s[0]) then "" else [s[0]]) + NonSpace(s[1..])
  }

  function Flatten(ws: seq<string>): string {
    if ws == [] then "" else ws[0] + Flatten(ws[1..])
  }

  predicate IsWord(w: string) {
    w != "" && forall k :: 0 <= k < |w| ==> !IsSpace(w[k])
  }

  lemma {:induction false} WordsAreWords(s: string)
    ensures forall i :: 0 <= i < |Words(s)| ==> IsWord(Words(s)[i])
  {
    if s != "" {
      var ws := Words(s[1..]);
      WordsAreWords(s[1..]);
      if !IsSpace(s[0]) && |s| > 1 && !IsSpace(s[1]) {
        assert IsWord(ws[0]);
        assert IsWord([s[0]] + ws[0]);
      } else if !IsSpace(s[0]) {
        assert IsWord([s[0]]);
      }
    }
  }

  /** Splitting loses exactly the whitespace: the words together are the text's other
      characters in order. */
  lemma {:induction false} WordsKeepText(s: string)
    ensures Flatten(Words(s)) == NonSpace(s)
  {
    hide IsSpace;
    if s != "" {
      WordsKeepText(s[1..]);
      WordsStep(s);
      var ws := Words(s[1..]);
      hide Words;
      if !IsSpace(s[0]) && |s| > 1 && !IsSpace(s[1]) {
        FlattenGlued(s[0], ws);
      } else if !IsSpace(s[0]) {
        FlattenNew(s[0], ws);
      }
    }
  }

  /** The words of a text from those of the text without its first character. */
  lemma WordsStep(s: string)
    requires s != ""
    ensures IsSpace(s[0]) ==> Words(s) == Words(s[1..])
    ensures !IsSpace(s[0]) && |s| > 1 && !IsSpace(s[1]) ==>
      Words(s[1..]) != [] && Words(s) == [[s[0]] + Words(s[1..])[0]] + Words(s[1..])[1..]
    ensures !IsSpace(s[0]) && (|s| == 1 || IsSpace(s[1])) ==> Words(s) == [[s[0]]] + Words(s[1..])
  {
    hide IsSpace;
  }

  lemma FlattenCons(w: string, ws: seq<string>)
    ensures Flatten([w] + ws) == w + Flatten(ws)
  {
    assert ([w] + ws)[1..] == ws;
  }

  lemma Regrouped(a: string, b: string, c: string)
    ensures (a + b) + c == a + (b + c)
  {
  }

  lemma FlattenGlued(c: char, ws: seq<string>)
    requires ws != []
    ensures Flatten([[c] + ws[0]] + ws[1..]) == [c] + Flatten(ws)
  {
    hide Flatten;
    FlattenCons([c] + ws[0], ws[1..]);
    assert ws == [ws[0]] + ws[1..];
    FlattenCons(ws[0], ws[1..]);
    Regrouped([c], ws[0], Flatten(ws[1..]));
  }

  lemma FlattenNew(c: char, ws: seq<string>)
    ensures Flatten([[c]] + ws) == [c] + Flatten(ws)
  {
    FlattenCons([c], ws);
  }

  /** How the normal form changes when one character is put in front. */
  lemma NormalStep(s: string)
    requires s != ""
    ensures IsSpace(s[0]) ==> Normal(s) == Normal(s[1..])
    ensures !IsSpace(s[0]) && |s| > 1 && !IsSpace(s[1]) ==> Normal(s) == [s[0]] + Normal(s[1..])
    ensures !IsSpace(s[0]) && (|s| == 1 || IsSpace(s[1])) ==>
      Normal(s) == if Words(s[1..]) == [] then [s[0]] else [s[0]] + " " + Normal(s[1..])
  {
    WordsStep(s);
    hide IsSpace, Words;
    var ws := Words(s[1..]);
    if !IsSpace(s[0]) && |s| > 1 && !IsSpace(s[1]) {
      JoinGlued(s[0], ws);
    } else if !IsSpace(s[0]) {
      JoinNew(s[0], ws);
    }
  }

  lemma JoinGlued(c: char, ws: seq<string>)
    requires ws != []
    ensures Join([[c] + ws[0]] + ws[1..]) == [c] + Join(ws)
  {
    var vs := [[c] + ws[0]] + ws[1..];
    assert vs[1..] == ws[1..];
    if |ws| > 1 {
      assert Join(vs) == [c] + ws[0] + " " + Join(ws[1..]);
    }
  }

  lemma JoinNew(c: char, ws: seq<string>)
    ensures Join([[c]] + ws) == if ws == [] then [c] else [c] + " " + Join(ws)
  {
    assert ([[c]] + ws)[1..] == ws;
  }

  lemma {:induction false} NoWordsIffAllSpace(s: string)
    ensures Words(s) == [] <==> AllSpace(s)
    ensures Normal(s) == "" <==> AllSpace(s)
  {
    hide IsSpace;
    if s != "" {
      NoWordsIffAllSpace(s[1..]);
      NormalStep(s);
      assert s == [s[0]] + s[1..];
    }
  }

  lemma {:induction false} NormalSuffix(x: string, q: string) returns (w: string)
    ensures Normal(x + q) == w + Normal(q)
  {
    hide IsSpace, Normal, Words;
    if x == "" {
      assert x + q == q;
      w := "";
    } else {
      var v := NormalSuffix(x[1..], q);
      var s := x + q;
      assert s[1..] == x[1..] + q;
      NormalStep(s);
      NoWordsIffAllSpace(s[1..]);
      if IsSpace(s[0]) {
        w := v;
      } else if |s| > 1 && !IsSpace(s[1]) {
        w := [s[0]] + v;
      } else if Words(s[1..]) == [] {
        w := [s[0]];
      } else {
        w := [s[0]] + " " + v;
      }
    }
  }

  lemma {:induction false} NormalPrefix(q: string, y: string)
    ensures Normal(q) <= Normal(q + y)
  {
    hide IsSpace;
    if q != "" {
      var s, c := q + y, q[0];
      assert s[1..] == q[1..] + y;
      NormalPrefix(q[1..], y);
      NormalStep(s);
      NormalStep(q);
      NoWordsIffAllSpace(s[1..]);
      NoWordsIffAllSpace(q[1..]);
      assert q[1..] == s[1..][..|q| - 1];
    }
  }

  /** Whitespace normalization preserves the substring relation. */
  lemma NormalPreservesIn(p: string, t: string)
    requires In(p, t)
    ensures In(Normal(p), Normal(t))
  {
    var i :| 0 <= i <= |t| && At(p, t, i);
    var y := t[i + |p|..];
    assert t == t[..i] + p + y;
    assert t[..i] + p + y == t[..i] + (p + y);
    var a := NormalSuffix(t[..i], p + y);
    NormalPrefix(p, y);
    var b := Normal(p + y)[|Normal(p)|..];
    assert Normal(t) == a + Normal(p) + b;
    InFromParts(a, Normal(p), b);
  }

  /** Containment up to whitespace: `" ".join(q.split()) in " ".join(t.split())`. */
  predicate Contains(q: string, t: string) {
    In(Normal(q), Normal(t))
  }

  lemma SliceContained(t: string, a: int, b: int)
    requires 0 <= a <= b <= |t|
    ensures Contains(t[a..b], t)
  {
    SliceIn(t, a, b);
    NormalPreservesIn(t[a..b], t);
  }

  /** Stripping both ends is invisible to the normal form, so it cannot change containment. */
  lemma StripKeepsNormal(s: string)
    ensures Normal(Strip(s)) == Normal(s)
  {
    hide IsSpace, AllSpace, Normal, Strip;
    var a, b := StripIsSlice(s);
    var inner, behind := s[a..b], s[b..];
    assert s == s[..a] + (inner + behind);
    SpaceInFront(s[..a], inner + behind);
    SpaceBehind(inner, behind);
  }

  lemma {:induction false} SpaceInFront(x: string, q: string)
    requires AllSpace(x)
    ensures Normal(x + q) == Normal(q)
  {
    if x == "" {
      assert x + q == q;
    } else {
      assert (x + q)[1..] == x[1..] + q;
      NormalStep(x + q);
      SpaceInFront(x[1..], q);
    }
  }

  lemma {:induction false} SpaceBehind(q: string, y: string)
    requires AllSpace(y)
    ensures Normal(q + y) == Normal(q) && (Words(q + y) == [] <==> Words(q) == [])
  {
    if q == "" {
      assert q + y == y;
      NoWordsIffAllSpace(y);
    } else {
      assert (q + y)[1..] == q[1..] + y;
      SpaceBehind(q[1..], y);
      NormalStep(q + y);
      NormalStep(q);
      if |q| == 1 {
        assert q[1..] == "";
      }
    }
  }
}
