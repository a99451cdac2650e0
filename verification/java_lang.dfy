/**
 * The pieces of Java and commons-lang semantics the wait loop depends on:
 * 32-bit `int` arithmetic, `long` division, `StringUtils.isBlank` and
 * `String.contains`.
 */
module JavaLang {
  import opened Wrappers

  predicate InInt32Range(x: int) {
    -0x8000_0000 <= x < 0x8000_0000
  }

  /** Java's `int`. */
  newtype int32 = x: int | InInt32Range(x)

  const TwoTo32: int := 0x1_0000_0000

  /**
   * The value Java produces when the mathematical result `x` is stored in an
   * `int` (an `int` multiplication, a `(int)` cast of a `long`): the unique
   * 32-bit value congruent to `x` modulo 2^32.
   */
  function Wrap32(x: int): (r: int32)
    ensures (r as int - x) % TwoTo32 == 0
    ensures InInt32Range(x) ==> r as int == x
  {
    var low := (x + 0x8000_0000) % TwoTo32;
    assert x + 0x8000_0000 == TwoTo32 * ((x + 0x8000_0000) / TwoTo32) + low;
    (low - 0x8000_0000) as int32
  }

  /** Java `long` division by 1000, which truncates toward zero. */
  function DivTrunc1000(a: int): (q: int)
    ensures a >= 0 ==> 0 <= 1000 * q <= a < 1000 * q + 1000
    ensures a < 0 ==> 1000 * q - 1000 < a <= 1000 * q <= 0
  {
    if a >= 0 then a / 1000 else -((-a) / 1000)
  }

  /**
   * `Character.isWhitespace`: the space, line and paragraph separators other
   * than the non-breaking ones, and the ASCII controls TAB..CR and FS..US.
   */
  predicate IsWhitespace(c: char): (b: bool)
    ensures c == ' ' || c == '\t' || c == '\n' || c == '\r' ==> b
    ensures c as int == 0xA0 || c as int == 0x2007 || c as int == 0x202F ==> !b
    ensures 0x20 < c as int < 0x7F ==> !b
  {
    var u := c as int;
    (0x09 <= u <= 0x0D) || (0x1C <= u <= 0x20) || u == 0x1680
    || (0x2000 <= u <= 0x2006) || (0x2008 <= u <= 0x200A)
    || u == 0x2028 || u == 0x2029 || u == 0x205F || u == 0x3000
  }

  /** `StringUtils.isBlank`: null, empty, or whitespace only. */
  predicate IsBlank(s: Option<string>): (b: bool)
    ensures s == None || s == Some("") ==> b
    ensures s.Some? && (exists i :: 0 <= i < |s.value| && 0x20 < s.value[i] as int < 0x7F) ==> !b
  {
    s.None? || forall i :: 0 <= i < |s.value| ==> IsWhitespace(s.value[i])
  }

  predicate StartsWith(s: string, t: string) {
    |t| <= |s| && s[..|t|] == t
  }

  /** `s.contains(t)`. */
  predicate Contains(s: string, t: string): (b: bool)
    ensures t == [] || t == s ==> b
    ensures b ==> |t| <= |s|
    decreases |s|
  {
    StartsWith(s, t) || (|s| > 0 && Contains(s[1..], t))
  }

  /** An occurrence of `t` in `s` at position `i`. */
  ghost predicate OccursAt(s: string, t: string, i: int) {
    0 <= i && i + |t| <= |s| && s[i..i + |t|] == t
  }

  /** `Contains` finds exactly the occurrences of `t`: one direction. */
  lemma {:induction false} ContainsHasOccurrence(s: string, t: string)
    requires Contains(s, t)
    ensures exists i :: OccursAt(s, t, i)
    decreases |s|
  {
    if StartsWith(s, t) {
      assert OccursAt(s, t, 0);
    } else {
      ContainsHasOccurrence(s[1..], t);
      var i :| OccursAt(s[1..], t, i);
      assert s[1..][i..i + |t|] == s[i + 1..i + 1 + |t|];
      assert OccursAt(s, t, i + 1);
    }
  }

  /** `Contains` finds exactly the occurrences of `t`: the other direction. */
  lemma {:induction false} OccurrenceIsContained(s: string, t: string, i: int)
    requires OccursAt(s, t, i)
    ensures Contains(s, t)
    decreases i
  {
    if i == 0 {
      assert StartsWith(s, t);
    } else {
      assert s[1..][i - 1..i - 1 + |t|] == s[i..i + |t|];
      OccurrenceIsContained(s[1..], t, i - 1);
    }
  }

  /** Whatever surrounds it, a message that embeds `t` contains `t`. */
  lemma ContainsInfix(p: string, t: string, q: string)
    ensures Contains(p + t + q, t)
  {
    var s := p + t + q;
    assert s[|p|..|p| + |t|] == t;
    OccurrenceIsContained(s, t, |p|);
  }
}
