/** Password hashing (security/password.go) over bcrypt. The hash itself is
    kept symbolic: a digest records the cost, the random salt and the
    Blowfish key bcrypt derives from the password, so that comparing a
    password with a digest is equality of the derived keys. The key is the
    password's UTF-8 bytes followed by a NUL, repeated cyclically to 72
    bytes: bytes past the 72nd are ignored, and a password and its own
    repetition around a NUL give the same key. */
module Password {
  import opened Errors

  /** bcrypt.DefaultCost, MinCost and MaxCost. */
  const DefaultCost: int := 10
  const MinCost: int := 4
  const MaxCost: int := 31
  /** GenerateFromPassword refuses passwords longer than 72 bytes. */
  const MaxPasswordBytes: nat := 72
  /** The length of the Blowfish key bcrypt expands. */
  const KeyBytes: nat := 72

  type Byte = b: int | 0 <= b < 256

  datatype Digest =
    | Bcrypt(cost: int, salt: string, key: seq<Byte>)
    /** A stored value that is not a bcrypt hash (an empty column, say). */
    | Text(text: string)

  /** Number of bytes of the UTF-8 encoding of one character. */
  function CharBytes(c: char): nat {
    if c as int < 0x80 then 1
    else if c as int < 0x800 then 2
    else if c as int < 0x1_0000 then 3
    else 4
  }

  /** len([]byte(s)) in Go: the length of the UTF-8 encoding of s. */
  function Utf8Length(s: string): (n: nat)
    ensures |s| <= n <= 4 * |s|
  {
    if s == [] then 0 else CharBytes(s[0]) + Utf8Length(s[1..])
  }

  /** The UTF-8 encoding of one character: a lead byte whose high bits give
      the length, then six bits per continuation byte. */
  function CharUtf8(c: char): (bs: seq<Byte>)
    ensures |bs| == CharBytes(c)
    ensures |bs| == 1 <==> bs[0] < 0x80
    ensures |bs| == 2 <==> 0xC0 <= bs[0] < 0xE0
    ensures |bs| == 3 <==> 0xE0 <= bs[0] < 0xF0
    ensures |bs| == 4 <==> 0xF0 <= bs[0]
    ensures forall k :: 1 <= k < |bs| ==> 0x80 <= bs[k]
  {
    var v := c as int;
    if v < 0x80 then [v]
    else if v < 0x800 then [0xC0 + v / 64, 0x80 + v % 64]
    else if v < 0x1_0000 then [0xE0 + v / 64 / 64, 0x80 + v / 64 % 64, 0x80 + v % 64]
    else [0xF0 + v / 64 / 64 / 64, 0x80 + v / 64 / 64 % 64, 0x80 + v / 64 % 64, 0x80 + v % 64]
  }

  /** A string of ASCII characters takes one byte per character. */
  lemma {:induction false} AsciiUtf8Length(s: string)
    requires forall i :: 0 <= i < |s| ==> s[i] as int < 0x80
    ensures Utf8Length(s) == |s|
  {
    if s != [] {
      assert forall i :: 0 <= i < |s[1..]| ==> s[1..][i] == s[i + 1];
      AsciiUtf8Length(s[1..]);
    }
  }

  /** []byte(s) in Go. */
  function Utf8(s: string): (bs: seq<Byte>)
    ensures |bs| == Utf8Length(s)
  {
    if s == [] then [] else CharUtf8(s[0]) + Utf8(s[1..])
  }

  lemma {:induction false} Utf8Append(a: string, b: string)
    ensures Utf8(a + b) == Utf8(a) + Utf8(b)
  {
    if a != [] {
      assert (a + b)[0] == a[0] && (a + b)[1..] == a[1..] + b;
      Utf8Append(a[1..], b);
      assert Utf8(a + b) == CharUtf8(a[0]) + Utf8(a[1..] + b);
    } else {
      assert a + b == b;
    }
  }

  /** Distinct characters have distinct encodings. */
  lemma CharUtf8Injective(c: char, d: char)
    requires CharUtf8(c) == CharUtf8(d)
    ensures c == d
  {
    var v, w := c as int, d as int;
    assert v % 64 == w % 64 || |CharUtf8(c)| == 1;
    if |CharUtf8(c)| == 3 {
      assert v / 64 / 64 == w / 64 / 64 && v / 64 % 64 == w / 64 % 64;
      assert v / 64 == w / 64;
    } else if |CharUtf8(c)| == 4 {
      assert v / 64 / 64 / 64 == w / 64 / 64 / 64 && v / 64 / 64 % 64 == w / 64 / 64 % 64;
      assert v / 64 / 64 == w / 64 / 64;
      assert v / 64 % 64 == w / 64 % 64;
      assert v / 64 == w / 64;
    }
  }

  /** Distinct strings have distinct encodings. */
  lemma {:induction false} Utf8Injective(a: string, b: string)
    requires Utf8(a) == Utf8(b)
    ensures a == b
  {
    if a != [] && b != [] {
      var ea, eb := CharUtf8(a[0]), CharUtf8(b[0]);
      assert Utf8(a)[0] == ea[0] && Utf8(b)[0] == eb[0];
      assert |ea| == |eb|;
      assert ea == Utf8(a)[..|ea|] && eb == Utf8(b)[..|eb|];
      CharUtf8Injective(a[0], b[0]);
      assert Utf8(a[1..]) == Utf8(a)[|ea|..] && Utf8(b[1..]) == Utf8(b)[|eb|..];
      Utf8Injective(a[1..], b[1..]);
      assert a == [a[0]] + a[1..] && b == [b[0]] + b[1..];
    }
  }

  /** Only the NUL character encodes to a zero byte. */
  lemma {:induction false} Utf8NulFree(s: string)
    requires '\0' !in s
    ensures 0 !in Utf8(s)
  {
    if s != [] {
      assert s[0] != '\0' && '\0' !in s[1..];
      Utf8NulFree(s[1..]);
    }
  }

  /** i reduced modulo m by repeated subtraction. */
  function Wrap(i: nat, m: nat): (r: nat)
    requires m > 0
    ensures r < m
  {
    if i < m then i else Wrap(i - m, m)
  }

  /** The Blowfish key bcrypt expands from the password bytes: the bytes and
      a terminating NUL, repeated cyclically to 72 bytes. */
  function BcryptKey(pw: seq<Byte>): (k: seq<Byte>)
    ensures |k| == KeyBytes
    ensures forall i :: 0 <= i < |pw| && i < KeyBytes ==> k[i] == pw[i]
    ensures |pw| < KeyBytes ==> k[|pw|] == 0
    ensures forall i :: |pw| < i < KeyBytes ==> k[i] == k[i - |pw| - 1]
  {
    var ck := pw + [0];
    seq(KeyBytes, i requires 0 <= i < KeyBytes => ck[Wrap(i, |ck|)])
  }

  /** Below 72 bytes and without NUL, the key determines the password bytes:
      the first zero of the key sits right after them. */
  lemma ShortKeyInjective(a: seq<Byte>, b: seq<Byte>)
    requires |a| < KeyBytes && |b| < KeyBytes && 0 !in a && 0 !in b
    requires BcryptKey(a) == BcryptKey(b)
    ensures a == b
  {
    assert |a| == |b|;
  }

  /** The cost bcrypt actually uses for a requested cost: HashPassword turns
      a non-positive cost into DefaultCost, and bcrypt raises any cost below
      MinCost to DefaultCost as well. */
  function EffectiveCost(cost: int): (c: int)
    ensures cost < MinCost ==> c == DefaultCost
    ensures cost >= MinCost ==> c == cost
  {
    var requested := if cost <= 0 then DefaultCost else cost;
    if requested < MinCost then DefaultCost else requested
  }

  /** HashPassword(password, cost): bcrypt.GenerateFromPassword with a fresh
      salt. */
  function HashPassword(password: string, cost: int, salt: string): (r: Result<Digest>)
    ensures r.Ok? <==> Utf8Length(password) <= MaxPasswordBytes && EffectiveCost(cost) <= MaxCost
    ensures Utf8Length(password) > MaxPasswordBytes ==> r == Err(PasswordTooLong)
    ensures r.Ok? ==> r.value.Bcrypt? && MinCost <= r.value.cost <= MaxCost
    ensures r.Ok? ==> r.value.salt == salt && r.value.key == BcryptKey(Utf8(password))
  {
    if Utf8Length(password) > MaxPasswordBytes then Err(PasswordTooLong)
    else if EffectiveCost(cost) > MaxCost then Err(InvalidCost)
    else Ok(Bcrypt(EffectiveCost(cost), salt, BcryptKey(Utf8(password))))
  }

  /** ComparePassword(hash, password) returns no error exactly when the
      digest is a bcrypt hash whose key is the one this password gives;
      CompareHashAndPassword has no length check of its own. */
  predicate ComparePassword(hash: Digest, password: string) {
    hash.Bcrypt? && hash.key == BcryptKey(Utf8(password))
  }

  /** A hash made from a password matches exactly the passwords with the
      same bcrypt key, the password itself among them. */
  lemma HashThenCompare(password: string, cost: int, salt: string, other: string)
    requires HashPassword(password, cost, salt).Ok?
    ensures ComparePassword(HashPassword(password, cost, salt).value, password)
    ensures ComparePassword(HashPassword(password, cost, salt).value, other) <==>
      BcryptKey(Utf8(other)) == BcryptKey(Utf8(password))
  {
  }

  /** For passwords of at most 71 bytes without NUL, a hash matches its own
      password and no other. */
  lemma ShortPasswordsCompareExactly(password: string, cost: int, salt: string, other: string)
    requires HashPassword(password, cost, salt).Ok?
    requires Utf8Length(password) < KeyBytes && Utf8Length(other) < KeyBytes
    requires '\0' !in password && '\0' !in other
    ensures ComparePassword(HashPassword(password, cost, salt).value, other) <==> other == password
  {
    if ComparePassword(HashPassword(password, cost, salt).value, other) {
      Utf8NulFree(password);
      Utf8NulFree(other);
      ShortKeyInjective(Utf8(other), Utf8(password));
      Utf8Injective(other, password);
    }
  }

  /** A 72-byte password's hash also matches that password with anything
      appended: bytes past the 72nd never reach the key. */
  lemma LongerPasswordMatches(password: string, cost: int, salt: string, extra: string)
    requires HashPassword(password, cost, salt).Ok? && Utf8Length(password) == KeyBytes
    ensures ComparePassword(HashPassword(password, cost, salt).value, password + extra)
  {
    Utf8Append(password, extra);
    var p, q := Utf8(password), Utf8(password + extra);
    assert forall i :: 0 <= i < KeyBytes ==> q[i] == p[i];
    assert BcryptKey(q) == BcryptKey(p);
  }

  /** The key repeats the password around its NUL, so "a" and "a\0a" share
      a key and the hash of one matches the other. */
  lemma NulRepetitionMatches(cost: int, salt: string)
    requires HashPassword("a", cost, salt).Ok?
    ensures ComparePassword(HashPassword("a", cost, salt).value, "a\0a")
  {
    var p, q := Utf8("a"), Utf8("a\0a");
    assert p == [0x61] && q == [0x61, 0, 0x61];
    var kp, kq := BcryptKey(p), BcryptKey(q);
    var i := 0;
    while i < KeyBytes
      invariant 0 <= i <= KeyBytes
      invariant forall j :: 0 <= j < i ==> kp[j] == kq[j]
    {
      if i >= 4 {
        assert kp[i] == kp[i - 2] == kp[i - 4];
      } else if i >= 2 {
        assert kp[i] == kp[i - 2];
      }
      i := i + 1;
    }
    assert kp == kq;
  }

  /** With the default cost every call site uses, hashing fails only for a
      password over 72 bytes; in particular it never fails for one of at most
      18 characters. */
  lemma DefaultCostFailsOnlyOnLength(password: string, salt: string)
    ensures HashPassword(password, DefaultCost, salt).Ok? <==> Utf8Length(password) <= MaxPasswordBytes
    ensures |password| <= 18 ==> HashPassword(password, DefaultCost, salt).Ok?
  {
  }
}
