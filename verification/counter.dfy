/** The `Counter` composable: its `Int` count, what a click makes of it, and
    how the button shows it. */
module Counter {
  import opened KotlinInt
  import opened Decimal

  /** A click reports `count + 1`, computed in Kotlin `Int` arithmetic. */
  function Click(count: int32): (r: int32)
    ensures count as int < MAX ==> r as int == count as int + 1
    ensures count as int == MAX ==> r as int == MIN
  {
    Wrap(count as int + 1)
  }

  /** The button takes the primary colours exactly when the count exceeds five. */
  function Emphasised(count: int32): (b: bool)
    ensures b <==> count as int > 5
    ensures b && count as int < MAX ==> Click(count) > 5
  {
    count > 5
  }

  /** `"I've been clicked $count times"`. */
  function Label(count: int32): (t: string)
    ensures |t| == 24 + |IntToDecimal(count as int)|
    ensures t[..18] == "I've been clicked " && t[|t| - 6..] == " times"
    ensures t[18..|t| - 6] == IntToDecimal(count as int)
  {
    "I've been clicked " + IntToDecimal(count as int) + " times"
  }

  /** The label determines the count it shows. */
  lemma LabelInjective(a: int32, b: int32)
    ensures Label(a) == Label(b) ==> a == b
  {
    if Label(a) == Label(b) {
      var da, db := IntToDecimal(a as int), IntToDecimal(b as int);
      var t := Label(a);
      assert t[18..|t| - 6] == da;
      assert Label(b)[18..|t| - 6] == db;
      IntToDecimalInjective(a as int, b as int);
    }
  }

  /** The count after k clicks. */
  function Clicks(count: int32, k: nat): int32
    decreases k
  {
    if k == 0 then count else Clicks(Click(count), k - 1)
  }

  /** Short of the `Int` limit, k clicks add exactly k. */
  lemma {:induction false} ClicksAdd(count: int32, k: nat)
    requires count as int + k <= MAX
    ensures Clicks(count, k) as int == count as int + k
    decreases k
  {
    if k > 0 {
      ClicksAdd(Click(count), k - 1);
    }
  }

  /** From the initial 0, k clicks show k. */
  lemma ClicksFromZero(k: nat)
    requires k <= MAX
    ensures Clicks(0, k) as int == k
  {
    ClicksAdd(0, k);
  }

  /** Short of the `Int` limit, more clicks never show a smaller count. */
  lemma ClicksMonotone(count: int32, j: nat, k: nat)
    requires j <= k && count as int + k <= MAX
    ensures Clicks(count, j) <= Clicks(count, k)
  {
    ClicksAdd(count, j);
    ClicksAdd(count, k);
  }

  /** Starting from 0, the button is emphasised exactly from the sixth click on. */
  lemma EmphasisedAfterClicks(k: nat)
    requires k <= MAX
    ensures Emphasised(Clicks(0, k)) <==> k > 5
  {
    ClicksFromZero(k);
  }

  /** The one place the model departs from `count + 1` on unbounded integers:
      a click at `Int.MAX_VALUE` shows `Int.MIN_VALUE`, which is not emphasised. */
  lemma ClickWrapsAtMax()
    ensures Click(MAX as int32) as int == MIN
    ensures !Emphasised(Click(MAX as int32))
  {
  }
}
