/** Discount pricing (PricingService.kt): a step policy from days-to-expiry
    to a discount rate, and per-product manual rates that take precedence
    over it. */
module Pricing {
  import opened Common

  /** The entries of the policy map, `daysLeft` threshold to rate. */
  type Policy = seq<(int, real)>

  predicate HasKey(policy: Policy, key: int) {
    exists i | 0 <= i < |policy| :: policy[i].0 == key
  }

  predicate RatesInUnit(policy: Policy) {
    forall i | 0 <= i < |policy| :: 0.0 <= policy[i].1 <= 1.0
  }

  /** `policy[key]`: the rate stored under `key`, if any. */
  function Lookup(policy: Policy, key: int): (r: Option<real>)
    ensures r.None? <==> !HasKey(policy, key)
    ensures r.Some? ==> exists i | 0 <= i < |policy| :: policy[i] == (key, r.value)
  {
    if |policy| == 0 then None
    else if policy[0].0 == key then Some(policy[0].1)
    else
      var r := Lookup(policy[1..], key);
      assert forall i | 0 <= i < |policy| - 1 :: policy[1..][i] == policy[i + 1];
      r
  }

  /** `keys.sortedDescending().firstOrNull { daysLeft >= it }`: the largest
      key not above `d`. */
  function LargestKeyAtMost(policy: Policy, d: int): (r: Option<int>)
    ensures r.None? <==> forall i | 0 <= i < |policy| :: policy[i].0 > d
    ensures r.Some? ==> r.value <= d && HasKey(policy, r.value)
    ensures r.Some? ==> forall i | 0 <= i < |policy| && policy[i].0 <= d :: policy[i].0 <= r.value
  {
    if |policy| == 0 then None
    else
      var rest := LargestKeyAtMost(policy[1..], d);
      assert forall i | 0 <= i < |policy| - 1 :: policy[1..][i] == policy[i + 1];
      var k := policy[0].0;
      if k > d then rest
      else match rest
        case None => Some(k)
        case Some(m) => Some(Max(k, m))
  }

  /** `discountRateByDaysLeft(daysLeft)`: no expiry means no discount;
      otherwise the rate of the largest key not above `daysLeft`, with key 0
      when every key is above it, and rate 0 when that key is missing. */
  function RateByDaysLeft(policy: Policy, daysLeft: Option<int>): (r: real)
    ensures daysLeft.None? ==> r == 0.0
    ensures RatesInUnit(policy) ==> 0.0 <= r <= 1.0
  {
    match daysLeft
    case None => 0.0
    case Some(d) =>
      var key := LargestKeyAtMost(policy, d).GetOr(0);
      Lookup(policy, key).GetOr(0.0)
  }

  /** The default policy. */
  const DefaultPolicy: Policy :=
    [(IntMax, 0.0), (3, 0.0), (2, 0.3), (1, 0.5), (0, 0.7), (IntMin, 0.7)]

  /** The default policy's steps, written out: three or more days left, no
      discount; two days, 30%; one day, 50%; the last day or past it, 70%. */
  function DefaultStep(d: int): real {
    if d >= 3 then 0.0 else if d == 2 then 0.3 else if d == 1 then 0.5 else 0.7
  }

  lemma DefaultPolicyKeys()
    ensures forall i | 0 <= i < |DefaultPolicy| ::
              DefaultPolicy[i].0 in {IntMax, 3, 2, 1, 0, IntMin}
  {
  }

  /** The key the default policy selects for `d`. */
  lemma DefaultKey(d: int)
    ensures d >= IntMin ==> LargestKeyAtMost(DefaultPolicy, d) == Some(
              if d >= IntMax then IntMax else if d >= 3 then 3
              else if d >= 0 then d else IntMin)
    ensures d < IntMin ==> LargestKeyAtMost(DefaultPolicy, d) == None
  {
    var r := LargestKeyAtMost(DefaultPolicy, d);
    DefaultPolicyKeys();
    assert DefaultPolicy[5].0 == IntMin;
    if d >= IntMin {
      assert r.Some?;
      if d >= IntMax {
        assert DefaultPolicy[0].0 == IntMax;
      } else if d >= 3 {
        assert DefaultPolicy[1].0 == 3;
      } else if d == 2 {
        assert DefaultPolicy[2].0 == 2;
      } else if d == 1 {
        assert DefaultPolicy[3].0 == 1;
      } else if d >= 0 {
        assert DefaultPolicy[4].0 == 0;
      }
    }
  }

  predicate DistinctKeys(policy: Policy) {
    forall i, j | 0 <= i < j < |policy| :: policy[i].0 != policy[j].0
  }

  /** With distinct keys, a lookup finds the entry stored under the key. */
  lemma {:induction false} LookupEntry(policy: Policy, i: nat)
    requires DistinctKeys(policy) && i < |policy|
    ensures Lookup(policy, policy[i].0) == Some(policy[i].1)
  {
    if i > 0 {
      assert policy[1..][i - 1] == policy[i];
      LookupEntry(policy[1..], i - 1);
    }
  }

  lemma DefaultLookups()
    ensures Lookup(DefaultPolicy, IntMax) == Some(0.0)
    ensures Lookup(DefaultPolicy, 3) == Some(0.0)
    ensures Lookup(DefaultPolicy, 2) == Some(0.3)
    ensures Lookup(DefaultPolicy, 1) == Some(0.5)
    ensures Lookup(DefaultPolicy, 0) == Some(0.7)
    ensures Lookup(DefaultPolicy, IntMin) == Some(0.7)
  {
    assert DistinctKeys(DefaultPolicy);
    LookupEntry(DefaultPolicy, 0);
    LookupEntry(DefaultPolicy, 1);
    LookupEntry(DefaultPolicy, 2);
    LookupEntry(DefaultPolicy, 3);
    LookupEntry(DefaultPolicy, 4);
    LookupEntry(DefaultPolicy, 5);
  }

  /** Under the default policy the rate follows `DefaultStep` for every
      `d`; below zero, down to `Int.MIN_VALUE` and past it, it stays 70%. */
  lemma DefaultRate(d: int)
    ensures RateByDaysLeft(DefaultPolicy, Some(d)) == DefaultStep(d)
  {
    DefaultKey(d);
    DefaultLookups();
    var key := LargestKeyAtMost(DefaultPolicy, d).GetOr(0);
    if d >= IntMax {
      assert key == IntMax;
    } else if d >= 3 {
      assert key == 3;
    } else if d == 2 {
      assert key == 2;
    } else if d == 1 {
      assert key == 1;
    } else if d >= 0 {
      assert key == 0;
    } else if d >= IntMin {
      assert key == IntMin;
    } else {
      assert key == 0;
    }
  }

  /** Under the default policy the rate never grows as expiry recedes. */
  lemma DefaultRateNonIncreasing(d1: int, d2: int)
    requires d1 <= d2
    ensures RateByDaysLeft(DefaultPolicy, Some(d2)) <= RateByDaysLeft(DefaultPolicy, Some(d1))
  {
    DefaultRate(d1);
    DefaultRate(d2);
  }

  /** The default policy's rates are fractions. */
  lemma DefaultRateInUnit(daysLeft: Option<int>)
    ensures 0.0 <= RateByDaysLeft(DefaultPolicy, daysLeft) <= 1.0
  {
    assert RatesInUnit(DefaultPolicy);
  }

  /** The pricing service's state: its policy and the manual rates by
      product id. */
  datatype PricingState = PricingState(policy: Policy, manual: map<string, real>)

  predicate Valid(s: PricingState) {
    RatesInUnit(s.policy) && forall id | id in s.manual :: 0.0 <= s.manual[id] <= 1.0
  }

  /** A fresh service: the given policy, no manual rates. */
  function Init(policy: Policy): (s: PricingState)
    ensures RatesInUnit(policy) ==> Valid(s)
    ensures s.manual == map[]
  {
    PricingState(policy, map[])
  }

  /** `manualDiscountRate(id)`: the manual rate, if one is registered. */
  function ManualDiscountRate(s: PricingState, id: string): (r: Option<real>)
    ensures r.Some? <==> id in s.manual
    ensures r.Some? ==> r.value == s.manual[id]
    ensures Valid(s) && r.Some? ==> 0.0 <= r.value <= 1.0
  {
    if id in s.manual then Some(s.manual[id]) else None
  }

  /** `currentDiscountRate(id, daysLeft)`: the manual rate when registered,
      else the policy rate. */
  function CurrentDiscountRate(s: PricingState, id: string, daysLeft: Option<int>): (r: real)
    ensures Valid(s) ==> 0.0 <= r <= 1.0
    ensures ManualDiscountRate(s, id).Some? ==> r == ManualDiscountRate(s, id).value
    ensures ManualDiscountRate(s, id).None? ==> r == RateByDaysLeft(s.policy, daysLeft)
  {
    ManualDiscountRate(s, id).GetOr(RateByDaysLeft(s.policy, daysLeft))
  }

  /** `setManualDiscount(id, percent)`: fails unless `percent` is in
      0..100; otherwise registers `percent / 100`, replacing any earlier
      rate for `id` and no other. */
  function SetManualDiscount(s: PricingState, id: string, percent: int): (r: Result<PricingState>)
    ensures r.Err? <==> !(0 <= percent <= 100)
    ensures r.Err? ==> r.error == InvalidArgument
    ensures r.Ok? ==> r.value.policy == s.policy
    ensures r.Ok? ==> ManualDiscountRate(r.value, id) == Some(percent as real / 100.0)
    ensures r.Ok? ==> forall other | other != id ::
              ManualDiscountRate(r.value, other) == ManualDiscountRate(s, other)
    ensures r.Ok? && Valid(s) ==> Valid(r.value)
  {
    if 0 <= percent <= 100 then Ok(s.(manual := s.manual[id := percent as real / 100.0]))
    else Err(InvalidArgument)
  }

  /** `clearManualDiscount(id)`: drops the manual rate for `id` only. */
  function ClearManualDiscount(s: PricingState, id: string): (r: PricingState)
    ensures ManualDiscountRate(r, id) == None
    ensures r.policy == s.policy
    ensures forall other | other != id ::
              ManualDiscountRate(r, other) == ManualDiscountRate(s, other)
    ensures Valid(s) ==> Valid(r)
  {
    s.(manual := s.manual - {id})
  }

  /** After a successful `setManualDiscount(id, p)` the current rate of `id`
      is p/100 whatever the days left, overriding any earlier value; other
      products keep their current rate. */
  lemma SetThenCurrent(s: PricingState, id: string, percent: int, daysLeft: Option<int>, other: string)
    requires 0 <= percent <= 100
    requires other != id
    ensures SetManualDiscount(s, id, percent).Ok?
    ensures CurrentDiscountRate(SetManualDiscount(s, id, percent).value, id, daysLeft)
              == percent as real / 100.0
    ensures CurrentDiscountRate(SetManualDiscount(s, id, percent).value, other, daysLeft)
              == CurrentDiscountRate(s, other, daysLeft)
  {
  }

  /** After `clearManualDiscount(id)` the current rate of `id` is the
      policy rate. */
  lemma ClearThenCurrent(s: PricingState, id: string, daysLeft: Option<int>)
    ensures CurrentDiscountRate(ClearManualDiscount(s, id), id, daysLeft)
              == RateByDaysLeft(s.policy, daysLeft)
  {
  }

  /** Clearing twice is clearing once. */
  lemma ClearIdempotent(s: PricingState, id: string)
    ensures ClearManualDiscount(ClearManualDiscount(s, id), id) == ClearManualDiscount(s, id)
  {
    var once := ClearManualDiscount(s, id);
    assert once.manual - {id} == once.manual;
  }
}
