/**
 * The key-value cache the order service keeps its dirty flags in: string keys to string
 * values, and the key under which an order's flag is stored.
 */
module FlagCache {
  import opened Wrappers

  /** The character of a decimal digit. */
  function DigitChar(d: nat): (c: char)
    requires d < 10
    ensures '0' <= c <= '9'
  {
    (('0' as int) + d) as char
  }

  /** The decimal digits of `n`, most significant first, without leading zeros. */
  function Decimal(n: nat): (s: string)
    ensures 1 <= |s| && (n >= 10 ==> 2 <= |s|)
    ensures forall i :: 0 <= i < |s| ==> '0' <= s[i] <= '9'
    decreases n
  {
    if n < 10 then [DigitChar(n)] else Decimal(n / 10) + [DigitChar(n % 10)]
  }

  /** An integer as an f-string renders it: a minus sign for negatives, then the digits. */
  function IntText(i: int): string {
    if i < 0 then "-" + Decimal(-i) else Decimal(i)
  }

  /** Different numbers have different digit strings. */
  lemma {:induction false} DecimalInjective(a: nat, b: nat)
    requires Decimal(a) == Decimal(b)
    ensures a == b
    decreases a
  {
    var sa, sb := Decimal(a), Decimal(b);
    if a < 10 || b < 10 {
      assert |sa| == 1 && |sb| == 1;
      assert sa[0] == DigitChar(a) && sb[0] == DigitChar(b);
    } else {
      assert sa[|sa| - 1] == DigitChar(a % 10) && sb[|sb| - 1] == DigitChar(b % 10);
      assert sa[..|sa| - 1] == Decimal(a / 10) && sb[..|sb| - 1] == Decimal(b / 10);
      DecimalInjective(a / 10, b / 10);
    }
  }

  /** The rendering starts with a minus sign exactly for negative numbers. */
  lemma IntTextSign(i: int)
    ensures 1 <= |IntText(i)| && (IntText(i)[0] == '-' <==> i < 0)
  {
  }

  /** Different integers render differently. */
  lemma IntTextInjective(a: int, b: int)
    ensures IntText(a) == IntText(b) <==> a == b
  {
    if IntText(a) == IntText(b) {
      if a < 0 && b < 0 {
        assert Decimal(-a) == IntText(a)[1..] && Decimal(-b) == IntText(b)[1..];
        DecimalInjective(-a, -b);
      } else if 0 <= a && 0 <= b {
        DecimalInjective(a, b);
      } else {
        IntTextSign(a);
        IntTextSign(b);
        assert false;
      }
    }
  }

  const FlagPrefix: string := "modified_order_"

  /** The cache key of an order's dirty flag. */
  function OrderFlagKey(orderId: int): (k: string)
    ensures |FlagPrefix| < |k| && k[..|FlagPrefix|] == FlagPrefix
  {
    FlagPrefix + IntText(orderId)
  }

  /** Every order has a flag of its own: two orders never share a key. */
  lemma OrderFlagKeyInjective(a: int, b: int)
    ensures OrderFlagKey(a) == OrderFlagKey(b) <==> a == b
  {
    if OrderFlagKey(a) == OrderFlagKey(b) {
      assert IntText(a) == OrderFlagKey(a)[|FlagPrefix|..];
      assert IntText(b) == OrderFlagKey(b)[|FlagPrefix|..];
      IntTextInjective(a, b);
    }
  }

  /** The order's flag reads "True": its total is stale. */
  predicate Modified(entries: map<string, string>, orderId: int) {
    OrderFlagKey(orderId) in entries && entries[OrderFlagKey(orderId)] == "True"
  }

  /** The cache: `set` stores a value under a key, `get` returns it, or nothing for an unset key. */
  class FlagStore {
    var entries: map<string, string>

    constructor ()
      ensures entries == map[]
    {
      entries := map[];
    }

    method Set(name: string, value: string)
      modifies this
      ensures entries == old(entries)[name := value]
    {
      entries := entries[name := value];
    }

    method Get(name: string) returns (v: Option<string>)
      ensures v == if name in entries then Some(entries[name]) else None
    {
      if name in entries {
        v := Some(entries[name]);
      } else {
        v := None;
      }
    }
  }

  /** Setting one order's flag leaves every other order's flag as it was. */
  lemma SetLeavesOtherFlags(entries: map<string, string>, a: int, b: int, value: string)
    requires a != b
    ensures Modified(entries[OrderFlagKey(a) := value], b) == Modified(entries, b)
  {
    OrderFlagKeyInjective(a, b);
  }
}
