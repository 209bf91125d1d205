/**
 * What the hashes compute, said without their loops: polynomials in 33 and 32 modulo 2^64. Hence
 * signatures that differ in the line alone, or in one character of name or file, hash apart.
 */
module SubcaseHashLaws {
  import opened SubcaseHash

  // ---------------------------------------------------------------------------------------
  // Arithmetic modulo 2^64
  // ---------------------------------------------------------------------------------------

  ghost predicate Congruent(a: int, b: int) {
    exists q :: a - b == Words(q)
  }

  lemma CongruentBy(a: int, b: int, q: int)
    requires a - b == q * WORD
    ensures Congruent(a, b)
  {
    assert a - b == Words(q);
  }

  lemma ModIsCongruent(a: int)
    ensures Congruent(a % WORD, a)
  {
    CongruentBy(a % WORD, a, -(a / WORD));
  }

  lemma Chain(a: int, b: int, c: int)
    requires Congruent(a, b) && Congruent(b, c)
    ensures Congruent(a, c)
  {
    var p :| a - b == Words(p);
    var q :| b - c == Words(q);
    CongruentBy(a, c, p + q);
  }

  lemma Scaled(k: int, a: int, b: int, c: int)
    requires Congruent(a, b)
    ensures Congruent(k * a + c, k * b + c)
  {
    var q :| a - b == Words(q);
    assert k * a - k * b == (k * q) * WORD;
    CongruentBy(k * a + c, k * b + c, k * q);
  }

  lemma SameResidue(a: int, b: int)
    requires Congruent(a, b)
    ensures a % WORD == b % WORD
  {
    var q :| a - b == Words(q);
    assert a == b + q * WORD;
    ResidueShifts(b, q);
  }

  lemma ResidueShifts(b: int, q: int)
    ensures (b + q * WORD) % WORD == b % WORD
  {
    var d := (b + q * WORD) / WORD - b / WORD - q;
    assert (b + q * WORD) % WORD - b % WORD == -d * WORD;
  }

  lemma SmallIsZero(d: int)
    requires Congruent(d, 0) && -WORD < d < WORD
    ensures d == 0
  {
    var q :| d - 0 == Words(q);
  }

  // ---------------------------------------------------------------------------------------
  // Polynomials
  // ---------------------------------------------------------------------------------------

  function Power(base: nat, n: nat): (p: nat)
    requires base > 0
    ensures p > 0
  {
    if n == 0 then 1 else base * Power(base, n - 1)
  }

  /** The sum of `s[i]` times `base` to the power of the number of places behind it. */
  function Poly(base: nat, s: seq<int>): (sum: int)
    requires base > 0
  {
    if s == [] then 0 else s[0] * Power(base, |s| - 1) + Poly(base, s[1..])
  }

  lemma {:induction false} PolyLast(base: nat, s: seq<int>, c: int)
    requires base > 0
    ensures Poly(base, s + [c]) == base * Poly(base, s) + c
    decreases |s|
  {
    if s == [] {
      assert s + [c] == [c] && [c][1..] == [];
    } else {
      assert (s + [c])[1..] == s[1..] + [c];
      PolyLast(base, s[1..], c);
      assert s[0] * Power(base, |s|) == base * (s[0] * Power(base, |s| - 1));
    }
  }

  lemma LastOff<T>(s: seq<T>)
    requires s != []
    ensures s == s[..|s| - 1] + [s[|s| - 1]]
  {
  }

  // ---------------------------------------------------------------------------------------
  // The string hash
  // ---------------------------------------------------------------------------------------

  lemma Djb2Next(s: SignedChars, c: CChar)
    ensures Djb2(s + [c]) == (33 * Djb2(s) + c) % WORD
  {
    var h := Djb2(s);
    assert (s + [c])[..|s|] == s;
    var q := (h * 32) / WORD;
    assert (h * 32) % WORD + h + c == 33 * h + c + (-q) * WORD;
    ResidueShifts(33 * h + c, -q);
  }

  /** `5381 * 33^n` and the characters as digits to the base 33. */
  lemma {:induction false} StringHashIsPolynomial(s: SignedChars)
    ensures Djb2(s) == (5381 * Power(33, |s|) + Poly(33, s)) % WORD
    decreases |s|
  {
    if s != [] {
      var t, c := s[..|s| - 1], s[|s| - 1];
      LastOff(s);
      StringHashIsPolynomial(t);
      var p := 5381 * Power(33, |t|) + Poly(33, t);
      ModIsCongruent(p);
      Scaled(33, Djb2(t), p, c);
      Djb2Next(t, c);
      PolyLast(33, t, c);
      assert 5381 * Power(33, |s|) + Poly(33, s) == 33 * p + c;
      SameResidue(33 * Djb2(t) + c, 33 * p + c);
    }
  }

  /** The inverse of 33 modulo 2^64. */
  const INVERSE: int := 1117984489315730401

  /** 33 is odd, so it can be cancelled. */
  lemma Cancel33(d: int)
    requires Congruent(33 * d, 0)
    ensures Congruent(d, 0)
  {
    var q :| 33 * d - 0 == Words(q);
    var k := (33 * INVERSE - 1) / WORD;
    assert 33 * INVERSE == 1 + k * WORD;
    assert d == INVERSE * (33 * d) - (k * d) * WORD;
    assert INVERSE * (33 * d) == (INVERSE * q) * WORD;
    CongruentBy(d, 0, INVERSE * q - k * d);
  }

  /** The words differ by `d` times 33^n. */
  ghost predicate Spread(x: Word, y: Word, d: int, n: nat) {
    Congruent(x - y, d * Power(33, n))
  }

  lemma SpreadOnce(x: Word, y: Word, d: int, n: nat, c: int, x': Word, y': Word)
    requires Spread(x, y, d, n) && x' == (33 * x + c) % WORD && y' == (33 * y + c) % WORD
    ensures Spread(x', y', d, n + 1)
  {
    var q :| x - y - d * Power(33, n) == Words(q);
    var u, v := (33 * x + c) / WORD, (33 * y + c) / WORD;
    assert d * Power(33, n + 1) == 33 * (d * Power(33, n));
    CongruentBy(x' - y', d * Power(33, n + 1), 33 * q - u + v);
  }

  lemma SpreadAtFirst(x: Word, y: Word)
    ensures Spread(x, y, x - y, 0)
  {
    CongruentBy(x - y, (x - y) * Power(33, 0), 0);
  }

  /** Hashes that differ by `d` before a common ending differ by `d * 33^n` after it. */
  lemma {:induction false} SpreadBySuffix(a: SignedChars, b: SignedChars, s: SignedChars)
    ensures Spread(Djb2(a + s), Djb2(b + s), Djb2(a) - Djb2(b), |s|)
    decreases |s|
  {
    if s == [] {
      assert a + s == a && b + s == b;
      SpreadAtFirst(Djb2(a), Djb2(b));
    } else {
      var t, c := s[..|s| - 1], s[|s| - 1];
      assert a + s == (a + t) + [c] && b + s == (b + t) + [c];
      SpreadBySuffix(a, b, t);
      Djb2Next(a + t, c);
      Djb2Next(b + t, c);
      SpreadOnce(Djb2(a + t), Djb2(b + t), Djb2(a) - Djb2(b), |t|, c, Djb2(a + s), Djb2(b + s));
    }
  }

  lemma {:induction false} CancelPower(d: int, n: nat)
    requires Congruent(d * Power(33, n), 0)
    ensures Congruent(d, 0)
    decreases n
  {
    if n > 0 {
      assert d * Power(33, n) == 33 * (d * Power(33, n - 1));
      Cancel33(d * Power(33, n - 1));
      CancelPower(d, n - 1);
    }
  }

  lemma CharsApart(p: SignedChars, c: CChar, d: CChar)
    ensures Congruent(Djb2(p + [c]) - Djb2(p + [d]), c - d)
  {
    Djb2Next(p, c);
    Djb2Next(p, d);
    EndsApart(Djb2(p), c, d, Djb2(p + [c]), Djb2(p + [d]));
  }

  lemma EndsApart(h: Word, c: int, d: int, x: Word, y: Word)
    requires x == (33 * h + c) % WORD && y == (33 * h + d) % WORD
    ensures Congruent(x - y, c - d)
  {
    CongruentBy(x - y, c - d, (33 * h + d) / WORD - (33 * h + c) / WORD);
  }

  lemma StillZero(k: int, a: int, b: int)
    requires Congruent(a, b) && Congruent(k * a, 0)
    ensures Congruent(k * b, 0)
  {
    var p :| a - b == Words(p);
    var q :| k * a - 0 == Words(q);
    assert k * b == k * a - (k * p) * WORD;
    CongruentBy(k * b, 0, q - k * p);
  }

  lemma SmallFactorShows(k: nat, x: Word, y: Word, d: int, n: nat, e: int)
    requires Spread(x, y, d, n) && Congruent(d, e) && e != 0 && -256 < e < 256 && 0 < k < 0x1_0000_0000
    ensures !Congruent(k * (x - y), 0)
  {
    if Congruent(k * (x - y), 0) {
      StillZero(k, x - y, d * Power(33, n));
      assert k * (d * Power(33, n)) == (k * d) * Power(33, n);
      CancelPower(k * d, n);
      StillZero(k, d, e);
      KeepsSmall(k, e);
      SmallIsZero(k * e);
    }
  }

  /** A factor below 2^32 in front does not hide the difference of a single character. */
  lemma OneCharacterShows(k: nat, p: SignedChars, c: CChar, d: CChar, s: SignedChars)
    requires c != d && 0 < k < 0x1_0000_0000
    ensures !Congruent(k * (Djb2(p + [c] + s) - Djb2(p + [d] + s)), 0)
  {
    var x, y := p + [c], p + [d];
    SpreadBySuffix(x, y, s);
    CharsApart(p, c, d);
    SmallFactorShows(k, Djb2(x + s), Djb2(y + s), Djb2(x) - Djb2(y), |s|, c - d);
  }

  lemma KeepsSmall(k: nat, e: int)
    requires 0 < k < 0x1_0000_0000 && -256 < e < 256
    ensures -WORD < k * e < WORD && (k * e == 0 ==> e == 0)
  {
  }

  /** Strings that differ in exactly one place hash differently. */
  lemma OneCharacterTells(p: SignedChars, c: CChar, d: CChar, s: SignedChars)
    requires c != d
    ensures Djb2(p + [c] + s) != Djb2(p + [d] + s)
  {
    OneCharacterShows(1, p, c, d, s);
    CongruentBy(0, 0, 0);
  }

  // ---------------------------------------------------------------------------------------
  // Signatures and paths
  // ---------------------------------------------------------------------------------------

  /** The file counts 1024 times, the name 32 times, the line once. */
  function Weight(sig: Signature): (w: int) {
    1024 * Djb2(sig.file) + 32 * Djb2(sig.name) + sig.line
  }

  lemma SignatureHashIsWeight(sig: Signature)
    ensures SignatureHash(sig) == Weight(sig) % WORD
  {
    var inner := 32 * Djb2(sig.file) + Djb2(sig.name);
    ModIsCongruent(inner);
    Scaled(32, inner % WORD, inner, sig.line % WORD);
    ModIsCongruent(sig.line);
    Scaled(1, sig.line % WORD, sig.line, 32 * inner);
    Chain(32 * (inner % WORD) + sig.line % WORD, 32 * inner + sig.line % WORD, Weight(sig));
    SameResidue(32 * (inner % WORD) + sig.line % WORD, Weight(sig));
  }

  function Weights(path: Path): (ws: seq<int>)
    ensures |ws| == |path|
  {
    if path == [] then [] else Weights(path[..|path| - 1]) + [Weight(path[|path| - 1])]
  }

  /** The signatures of a path as digits to the base 32. */
  lemma {:induction false} PathHashIsPolynomial(path: Path)
    ensures PathHash(path) == Poly(32, Weights(path)) % WORD
    decreases |path|
  {
    if path != [] {
      var t, sig := path[..|path| - 1], path[|path| - 1];
      PathHashIsPolynomial(t);
      SignatureHashIsWeight(sig);
      PolyLast(32, Weights(t), Weight(sig));
      MixOfResidues(Poly(32, Weights(t)), Weight(sig));
    }
  }

  lemma MixOfResidues(p: int, w: int)
    ensures Mix(p % WORD, w % WORD) == (32 * p + w) % WORD
  {
    ModIsCongruent(p);
    ModIsCongruent(w);
    Scaled(32, p % WORD, p, w % WORD);
    Scaled(1, w % WORD, w, 32 * p);
    Chain(32 * (p % WORD) + w % WORD, 32 * p + w % WORD, 32 * p + w);
    SameResidue(32 * (p % WORD) + w % WORD, 32 * p + w);
  }

  /** Two strings of one length that are equal but for one character. */
  ghost predicate OneOff(a: SignedChars, b: SignedChars) {
    |a| == |b| && exists k :: 0 <= k < |a| && DiffersOnlyAt(a, b, k)
  }

  ghost predicate DiffersOnlyAt(a: SignedChars, b: SignedChars, k: nat)
    requires k < |a| == |b|
  {
    a[k] != b[k] && forall i :: 0 <= i < |a| && i != k ==> a[i] == b[i]
  }

  /** Signatures that differ in the line alone, or in one character of the name or of the file. */
  ghost predicate ToldApart(s: Signature, t: Signature) {
    || (s.file == t.file && s.name == t.name && s.line != t.line)
    || (s.file == t.file && OneOff(s.name, t.name) && s.line == t.line)
    || (OneOff(s.file, t.file) && s.name == t.name && s.line == t.line)
  }

  lemma OneOffShows(k: nat, a: SignedChars, b: SignedChars)
    requires OneOff(a, b) && 0 < k < 0x1_0000_0000
    ensures !Congruent(k * (Djb2(a) - Djb2(b)), 0)
  {
    var j :| 0 <= j < |a| && DiffersOnlyAt(a, b, j);
    var p, s := a[..j], a[j + 1..];
    assert a == p + [a[j]] + s && b == p + [b[j]] + s;
    OneCharacterShows(k, p, a[j], b[j], s);
  }

  /** Such signatures have different hashes. */
  lemma SignaturesHashApart(s: Signature, t: Signature)
    requires ToldApart(s, t)
    ensures SignatureHash(s) != SignatureHash(t)
  {
    SignatureHashIsWeight(s);
    SignatureHashIsWeight(t);
    if Weight(s) % WORD == Weight(t) % WORD {
      var d := Weight(s) - Weight(t);
      CongruentBy(d, 0, Weight(s) / WORD - Weight(t) / WORD);
      if s.line != t.line {
        SmallIsZero(d);
      } else if OneOff(s.name, t.name) && s.file == t.file {
        OneOffShows(32, s.name, t.name);
      } else {
        OneOffShows(1024, s.file, t.file);
      }
    }
  }

  /** The second argument of `Mix` can be read off its result. */
  lemma MixKeepsSecond(a: Word, b: Word, b': Word)
    requires Mix(a, b) == Mix(a, b')
    ensures b == b'
  {
    CongruentBy(b - b', 0, (a * 32 + b) / WORD - (a * 32 + b') / WORD);
    SmallIsZero(b - b');
  }

  /** Two subcases under the same path hash apart if their signatures do. */
  lemma SiblingsHashApart(p: Path, s: Signature, t: Signature)
    ensures PathHash(p + [s]) == PathHash(p + [t]) <==> SignatureHash(s) == SignatureHash(t)
  {
    HashExtends(p, s);
    HashExtends(p, t);
    if PathHash(p + [s]) == PathHash(p + [t]) {
      MixKeepsSecond(PathHash(p), SignatureHash(s), SignatureHash(t));
    }
  }
}
