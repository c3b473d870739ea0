/** Deterministic avatar choice from a post id (`getUserInfoFromPostId`):
    a string hash that multiplies by 31 for each code unit, kept to a signed
    32-bit integer after each step, then `abs` and the remainder by the
    number of avatars. */
module Avatars {

  /** A UTF-16 code unit, what `charCodeAt` returns. */
  type CodeUnit = c: int | 0 <= c < 0x1_0000

  const TwoTo32: int := 0x1_0000_0000
  const TwoTo31: int := 0x8000_0000

  datatype Avatar = Avatar(name: string, image: string)
  datatype UserInfo = UserInfo(name: string, image: string)

  predicate IsInt32(x: int) {
    -TwoTo31 <= x < TwoTo31
  }

  /** ToInt32 of section 7.1.6 of ECMA-262: the signed 32-bit integer congruent
      to `x` modulo 2^32, which is what `<<` and `&` apply to their operands and result. */
  function ToInt32(x: int): (r: int)
    ensures IsInt32(r)
    ensures (r - x) % TwoTo32 == 0
  {
    var m := x % TwoTo32;
    if m >= TwoTo31 then m - TwoTo32 else m
  }

  /** ToInt32 only depends on the residue modulo 2^32. */
  lemma ToInt32Congruent(x: int, y: int)
    requires (x - y) % TwoTo32 == 0
    ensures ToInt32(x) == ToInt32(y)
  {
    var q := (x - y) / TwoTo32;
    assert x == y + TwoTo32 * q;
    assert x % TwoTo32 == y % TwoTo32;
  }

  /** The hash of a prefix as the loop computes it:
      `hash := ToInt32(31 * hash + codeUnit)` for each code unit in turn. */
  function PostIdHash(s: seq<CodeUnit>): (h: int)
    ensures IsInt32(h)
    decreases |s|
  {
    if s == [] then 0 else ToInt32(31 * PostIdHash(s[..|s| - 1]) + s[|s| - 1])
  }

  /** The untruncated polynomial hash: the sum of s[i] * 31^(|s| - 1 - i). */
  function Polynomial(s: seq<CodeUnit>): int
    decreases |s|
  {
    if s == [] then 0 else 31 * Polynomial(s[..|s| - 1]) + s[|s| - 1]
  }

  /** Truncating after each step gives the same value as truncating once at the
      end: the hash is Java's `String.hashCode` over the code units. */
  lemma {:induction false} HashIsTruncatedPolynomial(s: seq<CodeUnit>)
    ensures PostIdHash(s) == ToInt32(Polynomial(s))
    decreases |s|
  {
    if s != [] {
      var p, c := s[..|s| - 1], s[|s| - 1];
      HashIsTruncatedPolynomial(p);
      StepCongruent(PostIdHash(p), Polynomial(p), c);
      ToInt32Congruent(31 * PostIdHash(p) + c, 31 * Polynomial(p) + c);
    }
  }

  /** If `h` is `q` truncated, then `31 * h + c` and `31 * q + c` are congruent modulo 2^32. */
  lemma StepCongruent(h: int, q: int, c: int)
    requires h == ToInt32(q)
    ensures ((31 * h + c) - (31 * q + c)) % TwoTo32 == 0
  {
    var k := (h - q) / TwoTo32;
    assert h - q == TwoTo32 * k;
    assert (31 * h + c) - (31 * q + c) == TwoTo32 * (31 * k);
  }

  /** One loop step as written: `hash = ((hash << 5) - hash) + char; hash = hash & hash`. */
  lemma ShiftStep(h: int, c: CodeUnit)
    requires IsInt32(h)
    ensures ToInt32(ToInt32(h * 32) - h + c) == ToInt32(31 * h + c)
  {
    var t := ToInt32(h * 32);
    var k := (t - h * 32) / TwoTo32;
    assert t == h * 32 + TwoTo32 * k;
    ToInt32Congruent(t - h + c, 31 * h + c);
  }

  /** `Math.abs` */
  function Abs(x: int): (r: nat)
    ensures r == x || r == -x
  {
    if x < 0 then -x else x
  }

  /** `Math.abs(hash) % AVATAR_OPTIONS.length`. */
  function AvatarIndex(hash: int, count: nat): (i: nat)
    requires count > 0
    ensures i < count
  {
    Abs(hash) % count
  }

  /** `getUserInfoFromPostId(postId)` over the avatar list `avatars`. */
  method UserInfoFromPostId(postId: seq<CodeUnit>, avatars: seq<Avatar>) returns (info: UserInfo)
    requires |avatars| > 0
    ensures var i := AvatarIndex(PostIdHash(postId), |avatars|);
            info == UserInfo(avatars[i].name, avatars[i].image)
  {
    var hash := 0;
    for i := 0 to |postId|
      invariant hash == PostIdHash(postId[..i])
    {
      var code := postId[i];
      ShiftStep(hash, code);
      assert postId[..i + 1][..i] == postId[..i];
      hash := (ToInt32(hash * 32) - hash) + code;
      hash := ToInt32(hash);  // `hash & hash`
    }
    assert postId[..|postId|] == postId;
    var index := AvatarIndex(hash, |avatars|);
    var selectedAvatar := avatars[index];
    info := UserInfo(selectedAvatar.name, selectedAvatar.image);
  }

  /** An empty id hashes to 0 and so picks the first avatar. */
  lemma EmptyIdPicksFirst(count: nat)
    requires count > 0
    ensures PostIdHash([]) == 0 && AvatarIndex(PostIdHash([]), count) == 0
  {
  }

  /** The most negative hash, whose negation is outside the signed 32-bit range,
      still gives an index in range, 2^31 modulo the count. */
  lemma MinHashIndex(count: nat)
    requires count > 0
    ensures AvatarIndex(-TwoTo31, count) == TwoTo31 % count
  {
  }

  /** "a" hashes to 97, "ab" to 97 * 31 + 98 = 3105. */
  lemma SmallHashes()
    ensures PostIdHash([97]) == 97
    ensures PostIdHash([97, 98]) == 3105
  {
    assert [97, 98][..1] == [97];
  }
}
