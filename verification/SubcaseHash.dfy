/**
 * The 64-bit hashes by which doctest remembers which subcases it has finished.
 *
 * Every operation wraps at 2^64, as `unsigned long long` does; a plain `char` is signed,
 * so a byte above 0x7F enters the string hash as a negative number.
 */
module SubcaseHash {

  const WORD: int := 0x1_0000_0000_0000_0000

  type Word = x: int | 0 <= x < WORD

  type CChar = x: int | -128 <= x < 128

  /** The bytes of a C string before its terminator. */
  type SignedChars = seq<CChar>

  type Int32 = x: int | -0x8000_0000 <= x < 0x8000_0000

  datatype Signature = Signature(name: SignedChars, file: SignedChars, line: Int32)

  type Path = seq<Signature>

  /** `(a << 5) + b` on unsigned 64-bit words. */
  function Mix(a: Word, b: Word): (r: Word) {
    (a * 32 + b) % WORD
  }

  function Djb2(s: SignedChars): (r: Word) {
    if s == [] then 5381
    else ((Djb2(s[..|s| - 1]) * 32) % WORD + Djb2(s[..|s| - 1]) + s[|s| - 1]) % WORD
  }

  function SignatureHash(sig: Signature): (r: Word) {
    Mix(Mix(Djb2(sig.file), Djb2(sig.name)), sig.line % WORD)
  }

  function PathHash(path: Path): (r: Word) {
    if path == [] then 0
    else Mix(PathHash(path[..|path| - 1]), SignatureHash(path[|path| - 1]))
  }

  method HashString(str: SignedChars) returns (hash: Word)
    ensures hash == Djb2(str)
  {
    hash := 5381;
    var i := 0;
    while i < |str|
      invariant 0 <= i <= |str|
      invariant hash == Djb2(str[..i])
    {
      assert str[..i + 1][..i] == str[..i];
      hash := ((hash * 32) % WORD + hash + str[i]) % WORD;
      i := i + 1;
    }
    assert str[..i] == str;
  }

  method HashSignature(sig: Signature) returns (hash: Word)
    ensures hash == SignatureHash(sig)
  {
    var file := HashString(sig.file);
    var name := HashString(sig.name);
    hash := Mix(Mix(file, name), sig.line % WORD);
  }

  /** The left-to-right fold over the first `count` entries of the subcase stack. */
  method HashPrefix(sigs: Path, count: nat) returns (running: Word)
    requires count <= |sigs|
    ensures running == PathHash(sigs[..count])
  {
    running := 0;
    for i := 0 to count
      invariant running == PathHash(sigs[..i])
    {
      var h := HashSignature(sigs[i]);
      assert sigs[..i + 1][..i] == sigs[..i];
      running := Mix(running, h);
    }
  }

  /** Mixing one signature into the hash of a prefix gives the hash of the longer path. */
  lemma HashExtends(path: Path, sig: Signature)
    ensures PathHash(path + [sig]) == Mix(PathHash(path), SignatureHash(sig))
  {
    assert (path + [sig])[..|path|] == path;
  }

  function Pow32(n: nat): (p: nat)
    ensures p > 0
  {
    if n == 0 then 1 else 32 * Pow32(n - 1)
  }

  lemma Pow32At13()
    ensures Pow32(13) == 2 * WORD
  {
    assert Pow32(5) == 0x200_0000;
    assert Pow32(9) == 32 * 32 * 32 * 32 * Pow32(5) by { assert Pow32(7) == 32 * 32 * Pow32(5); }
    assert Pow32(13) == 32 * 32 * 32 * 32 * Pow32(9) by { assert Pow32(11) == 32 * 32 * Pow32(9); }
  }

  /** `q` times 2^64. */
  function Words(q: int): (n: int) {
    q * WORD
  }

  /** `k`, shifted to the left by `n` times five bits. */
  function Shifted(k: int, n: nat): (d: int) {
    k * Pow32(n)
  }

  /** Up to a multiple of 2^64, the difference of `a` and `b` is a multiple of 32^n. */
  ghost predicate Agree(a: Word, b: Word, n: nat) {
    exists k, q :: a - b == Shifted(k, n) + Words(q)
  }

  lemma MixDifference(a: Word, a': Word, b: Word) returns (q: int)
    ensures Mix(a, b) - Mix(a', b) == 32 * (a - a') - Words(q)
  {
    q := (a * 32 + b) / WORD - (a' * 32 + b) / WORD;
  }

  lemma ShiftOnce(k: int, n: nat)
    ensures 32 * Shifted(k, n) == Shifted(k, n + 1)
  {
  }

  lemma MixShifts(a: Word, a': Word, b: Word, n: nat)
    requires Agree(a, a', n)
    ensures Agree(Mix(a, b), Mix(a', b), n + 1)
  {
    var k, q0 :| a - a' == Shifted(k, n) + Words(q0);
    var q := MixDifference(a, a', b);
    ShiftOnce(k, n);
    assert Mix(a, b) - Mix(a', b) == Shifted(k, n + 1) + Words(32 * q0 - q);
  }

  /**
   * After `s` has been mixed in on top of two different paths, the difference of the two
   * hashes is a multiple of 32^|s|, up to wrap-around.
   */
  lemma {:induction false} DifferenceShifts(p: Path, p': Path, s: Path)
    ensures Agree(PathHash(p + s), PathHash(p' + s), |s|)
  {
    if s == [] {
      assert p + s == p && p' + s == p';
      AgreeAtFirst(PathHash(p), PathHash(p'));
    } else {
      var t, last := s[..|s| - 1], s[|s| - 1];
      assert p + s == (p + t) + [last] && p' + s == (p' + t) + [last];
      DifferenceShifts(p, p', t);
      HashExtends(p + t, last);
      HashExtends(p' + t, last);
      MixShifts(PathHash(p + t), PathHash(p' + t), SignatureHash(last), |t|);
    }
  }

  lemma AgreeAtFirst(a: Word, b: Word)
    ensures Agree(a, b, 0)
  {
    assert a - b == Shifted(a - b, 0) + Words(0);
  }

  lemma AgreeAtLast(a: Word, b: Word)
    requires Agree(a, b, 13)
    ensures a == b
  {
    var k, q :| a - b == Shifted(k, 13) + Words(q);
    Pow32At13();
    assert a - b == (2 * k + q) * WORD;
  }

  /**
   * A path hash remembers only the last thirteen subcases: 32^13 is a multiple of 2^64, so
   * everything above them is shifted out of the word.
   */
  lemma {:induction false} HashForgets(p: Path, p': Path, s: Path)
    requires |s| >= 13
    ensures PathHash(p + s) == PathHash(p' + s)
    decreases |s|
  {
    if |s| == 13 {
      DifferenceShifts(p, p', s);
      AgreeAtLast(PathHash(p + s), PathHash(p' + s));
    } else {
      var t, last := s[..|s| - 1], s[|s| - 1];
      assert p + s == (p + t) + [last] && p' + s == (p' + t) + [last];
      HashForgets(p, p', t);
      HashExtends(p + t, last);
      HashExtends(p' + t, last);
    }
  }
}
