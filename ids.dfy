/** Record identifiers. Both services issue ids as `idCounter.toString()`:
    the decimal digits of a counter, without leading zeros. */
module Ids {

  /** The character of one decimal digit. */
  function DigitChar(d: nat): (c: char)
    requires d < 10
    ensures '0' <= c <= '9'
  {
    (d + '0' as int) as char
  }

  /** The decimal representation of `n`, as JavaScript's `Number.prototype.toString` writes it. */
  function NatToString(n: nat): (s: string)
    ensures 1 <= |s|
    ensures forall k :: 0 <= k < |s| ==> '0' <= s[k] <= '9'
    ensures n < 10 <==> |s| == 1
    decreases n
  {
    if n < 10 then [DigitChar(n)] else NatToString(n / 10) + [DigitChar(n % 10)]
  }

  /** `id` is the id of a counter value already handed out when the counter,
      which starts at 1, stands at `counter`. */
  ghost predicate IssuedBefore(id: string, counter: nat)
  {
    exists n: nat :: 1 <= n < counter && id == NatToString(n)
  }

  /** Distinct counter values give distinct ids, so a counter that only grows never reissues an id. */
  lemma {:induction false} NatToStringInjective(m: nat, n: nat)
    requires NatToString(m) == NatToString(n)
    ensures m == n
  {
    var s := NatToString(m);
    if m < 10 {
      assert DigitChar(m) == s[0] == DigitChar(n);
    } else {
      assert n >= 10;
      assert DigitChar(m % 10) == s[|s| - 1] == DigitChar(n % 10);
      assert NatToString(m / 10) == s[..|s| - 1] == NatToString(n / 10);
      NatToStringInjective(m / 10, n / 10);
    }
  }

  /** A counter value different from `n` never produces the id of `n`. */
  lemma DistinctCountersDistinctIds(m: nat, n: nat)
    requires m != n
    ensures NatToString(m) != NatToString(n)
  {
    if NatToString(m) == NatToString(n) {
      NatToStringInjective(m, n);
    }
  }
}
