/**
 * `detectLanguage` (assets/shadowReader.js:140-152): the share of Arabic-block
 * characters among the non-white-space characters decides the text direction.
 */
module Language {
  import opened Strings

  datatype Direction = Ltr | Rtl

  /** `{ direction, isArabic, arabicPercentage }`; the percentage is the exact ratio, a fraction in 0..1. */
  datatype LangInfo = LangInfo(direction: Direction, isArabic: bool, arabicPercentage: real)

  /** A character of the Arabic block U+0600..U+06FF. */
  predicate IsArabic(c: char) {
    '\U{0600}' <= c <= '\U{06FF}'
  }

  /** `text.match(/[؀-ۿ]/g).length` (0 when there is no match). */
  function ArabicCount(s: string): nat
  {
    if s == [] then 0 else (if IsArabic(s[0]) then 1 else 0) + ArabicCount(s[1..])
  }

  /** `text.replace(/\s/g, '').length`. */
  function NonSpaceCount(s: string): nat
  {
    if s == [] then 0 else (if IsSpace(s[0]) then 0 else 1) + NonSpaceCount(s[1..])
  }

  /** No Arabic-block character is white space, so the Arabic count never exceeds the non-space count. */
  lemma {:induction false} ArabicWithinNonSpace(s: string)
    ensures ArabicCount(s) <= NonSpaceCount(s)
  {
    if s != [] {
      ArabicWithinNonSpace(s[1..]);
    }
  }

  lemma {:induction false} AllSpaceHasNoNonSpace(s: string)
    ensures AllSpace(s) ==> NonSpaceCount(s) == 0
  {
    if s != [] {
      AllSpaceHasNoNonSpace(s[1..]);
    }
  }

  lemma ProductSign(x: real, y: real)
    requires x >= 0.0 && y > 0.0
    ensures x * y >= 0.0 && (x > 0.0 ==> x * y > 0.0)
  {
  }

  lemma DivTimes(x: real, y: real)
    requires y > 0.0
    ensures (x / y) * y == x
  {
  }

  /**
   * For a positive total `t` and `q * t == a`: `q` exceeds 0.3 exactly when
   * `10 a > 3 t`, and `q` lies in 0..1 when `a` does in 0..t.
   */
  lemma RatioFacts(q: real, a: real, t: real)
    requires t > 0.0 && q * t == a
    ensures q > 0.3 <==> 10.0 * a > 3.0 * t
    ensures 0.0 <= a <= t ==> 0.0 <= q <= 1.0
  {
    if q > 0.3 {
      ProductSign(q - 0.3, t);
    } else {
      ProductSign(0.3 - q, t);
    }
    if q < 0.0 {
      ProductSign(0.0 - q, t);
    }
    if q > 1.0 {
      ProductSign(q - 1.0, t);
    }
  }

  /** `q` is the ratio `a / t` whenever `t` is positive. */
  ghost predicate IsRatio(q: real, a: nat, t: nat) {
    t > 0 ==> q * t as real == a as real
  }

  /** `arabicChars / totalChars`, or 0 when there is no non-space character. */
  function Percentage(a: nat, t: nat): (p: real)
    requires a <= t
    ensures IsRatio(p, a, t)
    ensures t == 0 ==> p == 0.0
    ensures 0.0 <= p <= 1.0
    ensures p > 0.3 <==> 10 * a > 3 * t
  {
    if t > 0 then
      var q := a as real / t as real;
      DivTimes(a as real, t as real);
      RatioFacts(q, a as real, t as real);
      q
    else 0.0
  }

  /**
   * The direction is right-to-left exactly when the text counts as Arabic, and
   * it counts as Arabic exactly when Arabic characters are more than 30% of the
   * non-white-space characters; text with no non-space character (empty or
   * white space only) is left-to-right with percentage 0.
   */
  function DetectLanguage(text: string): (info: LangInfo)
    ensures info.direction == Rtl <==> info.isArabic
    ensures info.isArabic <==> 10 * ArabicCount(text) > 3 * NonSpaceCount(text)
    ensures IsRatio(info.arabicPercentage, ArabicCount(text), NonSpaceCount(text))
    ensures 0.0 <= info.arabicPercentage <= 1.0
    ensures AllSpace(text) ==> info == LangInfo(Ltr, false, 0.0)
  {
    ArabicWithinNonSpace(text);
    AllSpaceHasNoNonSpace(text);
    var pct := Percentage(ArabicCount(text), NonSpaceCount(text));
    LangInfo(if pct > 0.3 then Rtl else Ltr, pct > 0.3, pct)
  }
}
