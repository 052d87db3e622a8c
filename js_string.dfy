/**
 * The few `String.prototype` operations the components use, over strings
 * modelled as sequences of Unicode scalar values (`char`).
 */
module JsString {

  /** `t` occurs in `s` starting at index `i`. */
  predicate OccursAt(s: string, t: string, i: int)
  {
    0 <= i && i + |t| <= |s| && s[i..i + |t|] == t
  }

  /**
   * `s.includes(t)` with no position argument: `t` is a prefix of `s`, or it
   * occurs further on.
   */
  function Includes(s: string, t: string): bool
    decreases |s|
  {
    (|t| <= |s| && s[..|t|] == t) || (|s| > 0 && Includes(s[1..], t))
  }

  /** `includes` holds exactly when `t` occurs in `s` at some index. */
  lemma {:induction false} IncludesIff(s: string, t: string)
    ensures Includes(s, t) <==> exists i :: OccursAt(s, t, i)
    decreases |s|
  {
    if |t| <= |s| && s[..|t|] == t {
      assert OccursAt(s, t, 0);
    } else if |s| > 0 {
      IncludesIff(s[1..], t);
      if Includes(s[1..], t) {
        var i :| OccursAt(s[1..], t, i);
        assert s[1..][i..i + |t|] == s[i + 1..i + 1 + |t|];
        assert OccursAt(s, t, i + 1);
      } else {
        forall i | OccursAt(s, t, i) ensures false {
          assert i != 0;
          assert s[1..][i - 1..i - 1 + |t|] == s[i..i + |t|];
          assert OccursAt(s[1..], t, i - 1);
        }
      }
    } else {
      assert !exists i :: OccursAt(s, t, i);
    }
  }

  /** A witness index is enough to show that `includes` holds. */
  lemma IncludesAt(s: string, t: string, i: int)
    requires OccursAt(s, t, i)
    ensures Includes(s, t)
  {
    IncludesIff(s, t);
  }

  /**
   * `includes` is false when every index where a non-empty `t` could start
   * disagrees with `t` at its first code unit or at its code unit `k`.
   */
  lemma NotIncludes(s: string, t: string, k: nat)
    requires k < |t|
    requires forall i :: 0 <= i <= |s| - |t| ==> s[i] != t[0] || s[i + k] != t[k]
    ensures !Includes(s, t)
  {
    IncludesIff(s, t);
    forall i | 0 <= i <= |s| - |t| ensures !OccursAt(s, t, i) {
      assert s[i..i + |t|][0] == s[i] && s[i..i + |t|][k] == s[i + k];
    }
  }

  /** An index argument of `substring`, clamped to `[0, len]`. */
  function Clamp(k: int, len: nat): (r: nat)
    ensures r <= len
    ensures 0 <= k <= len ==> r == k
  {
    if k < 0 then 0 else if k > len then len else k
  }

  /**
   * `s.substring(start, end)`: both indices are clamped to `[0, |s|]`, and
   * when the first is the larger the two are swapped.
   */
  function Substring(s: string, start: int, end: int): (r: string)
    ensures |r| == if Clamp(start, |s|) <= Clamp(end, |s|)
                   then Clamp(end, |s|) - Clamp(start, |s|)
                   else Clamp(start, |s|) - Clamp(end, |s|)
  {
    var from, to := Clamp(start, |s|), Clamp(end, |s|);
    if from <= to then s[from..to] else s[to..from]
  }

  /**
   * `s.substring(0, n)` is the first `n` code units of `s`, the whole of `s`
   * when `n` is past its end, and empty when `n` is negative.
   */
  lemma SubstringFromStart(s: string, n: int)
    ensures n <= 0 ==> Substring(s, 0, n) == ""
    ensures 0 <= n <= |s| ==> Substring(s, 0, n) == s[..n]
    ensures |s| <= n ==> Substring(s, 0, n) == s
  {
  }
}
