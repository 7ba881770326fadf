/** The fragment of regular expressions the service uses: a concatenation of
    single-character classes, each repeated a fixed number of times
    (`[a-z]{2}`, `-`, `\d{3}`), matched against a whole string as
    `re.fullmatch` does.  Such a pattern matches only strings of one length,
    so no backtracking is needed. */
module Pattern {

  /** One character class: a literal character, a range such as `[a-z]`, or `\d`. */
  datatype CharClass = Literal(c: char) | Range(lo: char, hi: char) | Digit

  /** A class repeated exactly `times` times, like `x{times}`. */
  datatype Piece = Piece(cls: CharClass, times: nat)

  type Pattern = seq<Piece>

  predicate Accepts(k: CharClass, c: char) {
    match k
    case Literal(x) => c == x
    case Range(lo, hi) => lo <= c <= hi
    case Digit => '0' <= c <= '9'
  }

  /** The pattern that matches exactly the string `s`: every character
      becomes a one-time literal.  Interpolating a string into a pattern
      means this only while the string holds no metacharacter. */
  function Lit(s: string): (p: Pattern)
    ensures |p| == |s|
    ensures forall i :: 0 <= i < |s| ==> p[i] == Piece(Literal(s[i]), 1)
  {
    seq(|s|, i requires 0 <= i < |s| => Piece(Literal(s[i]), 1))
  }

  /** Whole-string match, consuming the pattern piece by piece and each piece
      one repetition at a time. */
  function FullMatch(p: Pattern, s: string): bool
    decreases |s|, |p|
  {
    if |p| == 0 then |s| == 0
    else if p[0].times == 0 then FullMatch(p[1..], s)
    else
      && |s| > 0
      && Accepts(p[0].cls, s[0])
      && FullMatch([Piece(p[0].cls, p[0].times - 1)] + p[1..], s[1..])
  }

  /** The pattern unrolled to one class per matched character. */
  function Expand(p: Pattern): seq<CharClass>
  {
    if |p| == 0 then []
    else seq(p[0].times, _ => p[0].cls) + Expand(p[1..])
  }

  /** Character by character acceptance of `s` by an unrolled pattern. */
  predicate AcceptsAll(ks: seq<CharClass>, s: string) {
    |s| == |ks| && forall i :: 0 <= i < |s| ==> Accepts(ks[i], s[i])
  }

  lemma {:induction false} ExpandAppend(a: Pattern, b: Pattern)
    ensures Expand(a + b) == Expand(a) + Expand(b)
    decreases |a|
  {
    if |a| == 0 {
      assert a + b == b;
    } else {
      assert (a + b)[0] == a[0];
      assert (a + b)[1..] == a[1..] + b;
      ExpandAppend(a[1..], b);
    }
  }

  lemma ExpandOne(k: CharClass, n: nat)
    ensures Expand([Piece(k, n)]) == seq(n, _ => k)
  {
    assert [Piece(k, n)][1..] == [];
  }

  lemma ExpandLit(s: string)
    ensures Expand(Lit(s)) == seq(|s|, i requires 0 <= i < |s| => Literal(s[i]))
    decreases |s|
  {
    if |s| > 0 {
      assert Lit(s)[1..] == Lit(s[1..]);
      ExpandLit(s[1..]);
    }
  }

  /** The recursive matcher agrees with character by character acceptance
      against the unrolled pattern. */
  lemma {:induction false} FullMatchIsAcceptsAll(p: Pattern, s: string)
    ensures FullMatch(p, s) <==> AcceptsAll(Expand(p), s)
    decreases |s|, |p|
  {
    if |p| == 0 {
    } else if p[0].times == 0 {
      FullMatchIsAcceptsAll(p[1..], s);
      assert Expand(p) == Expand(p[1..]);
    } else {
      var k := p[0].cls;
      var rest := [Piece(k, p[0].times - 1)] + p[1..];
      assert rest[0] == Piece(k, p[0].times - 1);
      assert rest[1..] == p[1..];
      assert Expand(rest) == seq(p[0].times - 1, _ => k) + Expand(p[1..]);
      assert Expand(p) == [k] + Expand(rest);
      if |s| > 0 {
        FullMatchIsAcceptsAll(rest, s[1..]);
        if AcceptsAll(Expand(p), s) {
          assert Accepts(Expand(p)[0], s[0]);
          forall i | 0 <= i < |s[1..]|
            ensures Accepts(Expand(rest)[i], s[1..][i])
          {
            assert Accepts(Expand(p)[i + 1], s[i + 1]);
          }
        }
        if FullMatch(p, s) {
          forall i | 0 <= i < |s|
            ensures Accepts(Expand(p)[i], s[i])
          {
            if i > 0 {
              assert Accepts(Expand(rest)[i - 1], s[1..][i - 1]);
            }
          }
        }
      }
    }
  }

  /** Matching a concatenation: `s` matches `a + b` exactly when its first
      `|Expand(a)|` characters match `a` and the rest match `b`. */
  lemma FullMatchAppend(a: Pattern, b: Pattern, s: string)
    ensures FullMatch(a + b, s) <==>
              |Expand(a)| <= |s| && FullMatch(a, s[..|Expand(a)|]) && FullMatch(b, s[|Expand(a)|..])
  {
    ExpandAppend(a, b);
    FullMatchIsAcceptsAll(a + b, s);
    var n := |Expand(a)|;
    if n <= |s| {
      FullMatchIsAcceptsAll(a, s[..n]);
      FullMatchIsAcceptsAll(b, s[n..]);
      if AcceptsAll(Expand(a) + Expand(b), s) {
        assert forall i :: 0 <= i < n ==> Accepts(Expand(a)[i], s[..n][i]) by {
          forall i | 0 <= i < n ensures Accepts(Expand(a)[i], s[..n][i]) {
            assert (Expand(a) + Expand(b))[i] == Expand(a)[i];
          }
        }
        assert forall i :: 0 <= i < |s| - n ==> Accepts(Expand(b)[i], s[n..][i]) by {
          forall i | 0 <= i < |s| - n ensures Accepts(Expand(b)[i], s[n..][i]) {
            assert (Expand(a) + Expand(b))[n + i] == Expand(b)[i];
          }
        }
      }
      if AcceptsAll(Expand(a), s[..n]) && AcceptsAll(Expand(b), s[n..]) {
        forall i | 0 <= i < |s|
          ensures Accepts((Expand(a) + Expand(b))[i], s[i])
        {
          if i < n {
            assert s[..n][i] == s[i];
          } else {
            assert s[n..][i - n] == s[i];
          }
        }
      }
    }
  }
}
