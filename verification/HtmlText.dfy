/**
  White space and text: `strings.TrimSpace`, and the non-white-space characters of
  a string, which is what the converter promises to carry over from the HTML.
 */
module HtmlText {

  /** Go's `unicode.IsSpace`: the code points with the White_Space property. */
  predicate IsSpace(c: char) {
    || c in {'\t', '\n', '\U{0B}', '\U{0C}', '\r', ' ', '\U{85}', '\U{A0}', '\U{1680}'}
    || '\U{2000}' <= c <= '\U{200A}'
    || c in {'\U{2028}', '\U{2029}', '\U{202F}', '\U{205F}', '\U{3000}'}
  }

  predicate IsBlank(s: string) {
    forall i :: 0 <= i < |s| ==> IsSpace(s[i])
  }

  function TrimLeft(s: string): string {
    if s != "" && IsSpace(s[0]) then TrimLeft(s[1..]) else s
  }

  function TrimRight(s: string): string {
    if s != "" && IsSpace(s[|s| - 1]) then TrimRight(s[..|s| - 1]) else s
  }

  function TrimSpace(s: string): string {
    TrimRight(TrimLeft(s))
  }

  /** The non-white-space characters of `s`, in order. */
  function Ink(s: string): string {
    if s == "" then "" else (if IsSpace(s[0]) then "" else [s[0]]) + Ink(s[1..])
  }

  lemma StringAssoc(a: string, b: string, c: string)
    ensures a + (b + c) == (a + b) + c
  {
  }

  lemma {:induction false} InkConcat(a: string, b: string)
    ensures Ink(a + b) == Ink(a) + Ink(b)
  {
    hide IsSpace;
    if a == "" {
      assert a + b == b;
    } else {
      InkConcat(a[1..], b);
      assert (a + b)[1..] == a[1..] + b && (a + b)[0] == a[0];
      StringAssoc(if IsSpace(a[0]) then "" else [a[0]], Ink(a[1..]), Ink(b));
    }
  }

  lemma {:induction false} InkOfBlank(s: string)
    ensures IsBlank(s) <==> Ink(s) == ""
  {
    if s != "" {
      InkOfBlank(s[1..]);
      assert IsBlank(s) ==> IsSpace(s[0]);
      assert forall i :: 0 < i < |s| ==> s[i] == s[1..][i - 1];
    }
  }

  lemma {:induction false} BlankConcat(a: string, b: string)
    ensures IsBlank(a + b) <==> IsBlank(a) && IsBlank(b)
  {
    InkOfBlank(a);
    InkOfBlank(b);
    InkOfBlank(a + b);
    InkConcat(a, b);
  }

  lemma {:induction false} InkOfTrimLeft(s: string)
    ensures Ink(TrimLeft(s)) == Ink(s)
  {
    if s != "" && IsSpace(s[0]) {
      InkOfTrimLeft(s[1..]);
    }
  }

  lemma {:induction false} InkOfTrimRight(s: string)
    ensures Ink(TrimRight(s)) == Ink(s)
  {
    if s != "" && IsSpace(s[|s| - 1]) {
      InkOfTrimRight(s[..|s| - 1]);
      assert s == s[..|s| - 1] + [s[|s| - 1]];
      InkConcat(s[..|s| - 1], [s[|s| - 1]]);
    }
  }

  /**
    Trimming a string loses no ink, and trims it to nothing exactly when it is blank.
    `TrimSpace(s) == ""` is the test the source makes before it drops a text node.
   */
  lemma TrimSpaceKeepsInk(s: string)
    ensures Ink(TrimSpace(s)) == Ink(s)
    ensures TrimSpace(s) == "" <==> IsBlank(s)
  {
    InkOfTrimLeft(s);
    InkOfTrimRight(TrimLeft(s));
    InkOfBlank(s);
    InkOfBlank(TrimSpace(s));
    TrimRightEnds(TrimLeft(s));
  }

  lemma {:induction false} TrimRightEnds(s: string)
    ensures TrimRight(s) != "" ==> !IsSpace(TrimRight(s)[|TrimRight(s)| - 1])
  {
    if s != "" && IsSpace(s[|s| - 1]) {
      TrimRightEnds(s[..|s| - 1]);
    }
  }

  lemma {:induction false} TrimLeftCuts(s: string) returns (i: nat)
    ensures i <= |s| && TrimLeft(s) == s[i..] && IsBlank(s[..i])
    ensures TrimLeft(s) != "" ==> !IsSpace(TrimLeft(s)[0])
  {
    if s != "" && IsSpace(s[0]) {
      var j := TrimLeftCuts(s[1..]);
      i := j + 1;
      assert s[..i] == [s[0]] + s[1..][..j];
    } else {
      i := 0;
    }
  }

  lemma {:induction false} TrimRightCuts(s: string)
    ensures |TrimRight(s)| <= |s| && TrimRight(s) == s[..|TrimRight(s)|] && IsBlank(s[|TrimRight(s)|..])
  {
    if s != "" && IsSpace(s[|s| - 1]) {
      var init := s[..|s| - 1];
      TrimRightCuts(init);
      assert s[|TrimRight(s)|..] == init[|TrimRight(s)|..] + [s[|s| - 1]];
    }
  }

  /** Exactly the white space at both ends goes: a blank prefix of length `i` and a blank suffix. */
  lemma TrimSpaceCuts(s: string) returns (i: nat)
    ensures i + |TrimSpace(s)| <= |s| && s[i..i + |TrimSpace(s)|] == TrimSpace(s)
    ensures IsBlank(s[..i]) && IsBlank(s[i + |TrimSpace(s)|..])
    ensures TrimSpace(s) != "" ==> !IsSpace(TrimSpace(s)[0]) && !IsSpace(TrimSpace(s)[|TrimSpace(s)| - 1])
  {
    i := TrimLeftCuts(s);
    var rest := TrimLeft(s);
    TrimRightCuts(rest);
    TrimRightEnds(rest);
    assert s[i + |TrimSpace(s)|..] == rest[|TrimSpace(s)|..];
  }

  // ----- Shuffles -----

  /** `w` consists of `a` and `b`, each of them in order. */
  predicate Shuffle(w: string, a: string, b: string) {
    if w == "" then a == "" && b == ""
    else
      || (a != "" && a[0] == w[0] && Shuffle(w[1..], a[1..], b))
      || (b != "" && b[0] == w[0] && Shuffle(w[1..], a, b[1..]))
  }

  lemma {:induction false} ShuffleConcat(w1: string, a1: string, b1: string, w2: string, a2: string, b2: string)
    requires Shuffle(w1, a1, b1) && Shuffle(w2, a2, b2)
    ensures Shuffle(w1 + w2, a1 + a2, b1 + b2)
  {
    if w1 == "" {
      assert w1 + w2 == w2 && a1 + a2 == a2 && b1 + b2 == b2;
    } else {
      assert (w1 + w2)[1..] == w1[1..] + w2;
      if a1 != "" && a1[0] == w1[0] && Shuffle(w1[1..], a1[1..], b1) {
        assert (a1 + a2)[1..] == a1[1..] + a2;
        ShuffleConcat(w1[1..], a1[1..], b1, w2, a2, b2);
      } else {
        assert (b1 + b2)[1..] == b1[1..] + b2;
        ShuffleConcat(w1[1..], a1, b1[1..], w2, a2, b2);
      }
    }
  }

  lemma {:induction false} ShuffleWithNothing(s: string)
    ensures Shuffle(s, s, "") && Shuffle(s, "", s)
  {
    if s != "" {
      ShuffleWithNothing(s[1..]);
    }
  }

  lemma {:induction false} ShuffleOnly(w: string, a: string)
    requires Shuffle(w, a, "")
    ensures w == a
  {
    if w != "" {
      ShuffleOnly(w[1..], a[1..]);
      assert w == [w[0]] + w[1..] && a == [a[0]] + a[1..];
    }
  }

  lemma {:induction false} ShuffleCounts(w: string, a: string, b: string)
    requires Shuffle(w, a, b)
    ensures multiset(w) == multiset(a) + multiset(b) && |w| == |a| + |b|
  {
    if w != "" {
      assert w == [w[0]] + w[1..];
      if a != "" && a[0] == w[0] && Shuffle(w[1..], a[1..], b) {
        assert a == [a[0]] + a[1..];
        ShuffleCounts(w[1..], a[1..], b);
      } else {
        assert b == [b[0]] + b[1..];
        ShuffleCounts(w[1..], a, b[1..]);
      }
    }
  }

  lemma ShuffleFront(c: string, w: string, a: string, b: string)
    requires |c| <= 1 && Shuffle(w, a, b)
    ensures Shuffle(c + w, c + a, b) && Shuffle(c + w, a, c + b)
  {
    if c == "" {
      assert c + w == w && c + a == a && c + b == b;
    } else {
      assert (c + w)[1..] == w && (c + a)[1..] == a && (c + b)[1..] == b;
    }
  }

  lemma {:induction false} ShuffleInk(w: string, a: string, b: string)
    requires Shuffle(w, a, b)
    ensures Shuffle(Ink(w), Ink(a), Ink(b))
  {
    if w != "" {
      var c := if IsSpace(w[0]) then "" else [w[0]];
      if a != "" && a[0] == w[0] && Shuffle(w[1..], a[1..], b) {
        ShuffleInk(w[1..], a[1..], b);
        ShuffleFront(c, Ink(w[1..]), Ink(a[1..]), Ink(b));
      } else {
        ShuffleInk(w[1..], a, b[1..]);
        ShuffleFront(c, Ink(w[1..]), Ink(a), Ink(b[1..]));
      }
    }
  }
}
