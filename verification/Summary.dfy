/** The active part of a table - its longest non-null prefix - and the sums over it. */
module Summary {
  import opened Types

  /** Number of entries before the first null entry. */
  function ActiveCount<A>(entry: seq<Entry<A>>): (n: nat)
    ensures n <= |entry|
    ensures forall i :: 0 <= i < n ==> entry[i].length != 0
    ensures n < |entry| ==> entry[n].length == 0
  {
    if |entry| == 0 || entry[0].length == 0 then 0 else 1 + ActiveCount(entry[1..])
  }

  /** A loop that stops at index n, having met no null entry before it, has found the count. */
  lemma ActiveCountIs<A>(entry: seq<Entry<A>>, n: nat)
    requires n <= |entry|
    requires forall i :: 0 <= i < n ==> entry[i].length != 0
    requires n == |entry| || entry[n].length == 0
    ensures ActiveCount(entry) == n
  {
    assert ActiveCount(entry) >= n;
  }

  function LengthSum<A>(entry: seq<Entry<A>>, k: nat): nat
    requires k <= |entry|
  {
    if k == 0 then 0 else LengthSum(entry, k - 1) + entry[k - 1].length
  }

  function DelaySum<A>(entry: seq<Entry<A>>, k: nat): nat
    requires k <= |entry|
  {
    if k == 0 then 0 else DelaySum(entry, k - 1) + entry[k - 1].delay
  }

  predicate FieldLength(length: nat) {
    length == 0 || length == 1 || length == 2 || length == 4
  }

  predicate FieldLengths<A>(entry: seq<Entry<A>>) {
    forall i :: 0 <= i < |entry| ==> FieldLength(entry[i].length)
  }

  lemma {:induction false} LengthSumBound<A>(entry: seq<Entry<A>>, k: nat)
    requires k <= |entry|
    requires FieldLengths(entry)
    ensures LengthSum(entry, k) <= 4 * k
  {
    if k > 0 {
      LengthSumBound(entry, k - 1);
    }
  }

  lemma {:induction false} DelaySumBound<A>(entry: seq<Entry<A>>, k: nat)
    requires k <= |entry|
    ensures DelaySum(entry, k) <= 0xFFFF * k
  {
    if k > 0 {
      DelaySumBound(entry, k - 1);
    }
  }

  lemma {:induction false} LengthSumMonotone<A>(entry: seq<Entry<A>>, j: nat, k: nat)
    requires j <= k <= |entry|
    ensures LengthSum(entry, j) <= LengthSum(entry, k)
  {
    if j < k {
      LengthSumMonotone(entry, j, k - 1);
    }
  }

  lemma {:induction false} DelaySumMonotone<A>(entry: seq<Entry<A>>, j: nat, k: nat)
    requires j <= k <= |entry|
    ensures DelaySum(entry, j) <= DelaySum(entry, k)
  {
    if j < k {
      DelaySumMonotone(entry, j, k - 1);
    }
  }

  /** A positive delay sum has a positive delay in it, and conversely. */
  lemma {:induction false} DelaySumPositive<A>(entry: seq<Entry<A>>, k: nat)
    requires k <= |entry|
    ensures DelaySum(entry, k) > 0 <==> exists j :: 0 <= j < k && entry[j].delay > 0
  {
    if k > 0 {
      DelaySumPositive(entry, k - 1);
      if entry[k - 1].delay > 0 {
      } else if exists j :: 0 <= j < k && entry[j].delay > 0 {
        var j :| 0 <= j < k && entry[j].delay > 0;
        assert j < k - 1;
      }
    }
  }

  ghost predicate SameTiming<A, B>(a: seq<Entry<A>>, b: seq<Entry<B>>, k: nat)
    requires k <= |a| && k <= |b|
  {
    forall i :: 0 <= i < k ==> a[i].length == b[i].length && a[i].delay == b[i].delay
  }

  /** The sums see only lengths and delays below k. */
  lemma {:induction false} SumsAgree<A, B>(a: seq<Entry<A>>, b: seq<Entry<B>>, k: nat)
    requires k <= |a| && k <= |b|
    requires SameTiming(a, b, k)
    ensures LengthSum(a, k) == LengthSum(b, k)
    ensures DelaySum(a, k) == DelaySum(b, k)
  {
    if k > 0 {
      SumsAgree(a, b, k - 1);
    }
  }

  lemma ActiveCountAgrees<A, B>(a: seq<Entry<A>>, b: seq<Entry<B>>)
    requires |a| == |b|
    requires SameTiming(a, b, |a|)
    ensures ActiveCount(a) == ActiveCount(b)
  {
    ActiveCountIs(b, ActiveCount(a));
  }

  /** Replacing entry j moves a sum that includes j by the difference, and no other sum. */
  lemma {:induction false} SumsAfterUpdate<A>(entry: seq<Entry<A>>, j: nat, e: Entry<A>, k: nat)
    requires j < |entry| && k <= |entry|
    ensures LengthSum(entry[j := e], k) ==
            LengthSum(entry, k) + (if j < k then e.length - entry[j].length else 0)
    ensures DelaySum(entry[j := e], k) ==
            DelaySum(entry, k) + (if j < k then e.delay - entry[j].delay else 0)
  {
    if k > 0 {
      SumsAfterUpdate(entry, j, e, k - 1);
    }
  }

  /** Adding in 16 bits. */
  lemma WrapAdd(sum: nat, x: u16)
    ensures (sum % U16_SPAN + x) % U16_SPAN == (sum + x) % U16_SPAN
  {
  }
}
