/** The landing page's private-sale panel: the Approve → Contribute → Claim
    step machine, the token estimate, the quick amounts, the toast queue and
    the scroll-progress ratio. */
module Rsui32 {
  import opened Wrappers

  datatype Asset = BNB | USDT

  /** A JavaScript number as the panel can hold it: a finite value, or NaN
      from `Number` applied to text that is not a number. */
  datatype Num = Finite(x: real) | NaN

  /** Tokens per US dollar. */
  const RATE: int := 500

  const DefaultPrice: real := 560.0

  /** The dollar value of the amount: the BNB price times the amount for BNB,
      the amount itself for USDT. */
  function Usd(asset: Asset, amount: Num, price: real): (r: Num)
    ensures amount.NaN? <==> r.NaN?
    ensures asset == USDT ==> r == amount
    ensures asset == BNB && amount.Finite? ==> r == Finite(amount.x * price)
  {
    match amount
    case NaN => NaN
    case Finite(a) => if asset == BNB then Finite(a * price) else Finite(a)
  }

  /** `Math.floor(usd * RATE_RST_PER_USD)`; None stands for NaN. */
  function Rst(usd: Num): (r: Option<int>)
    ensures usd.Finite? <==> r.Some?
    ensures usd.Finite? ==> r.value as real <= usd.x * RATE as real < r.value as real + 1.0
  {
    match usd
    case NaN => None
    case Finite(u) => Some((u * RATE as real).Floor)
  }

  /** The estimate never decreases as the amount grows, as long as the BNB
      price is not negative. */
  lemma {:induction false} RstMonotone(asset: Asset, a: real, b: real, price: real)
    requires a <= b && price >= 0.0
    ensures Rst(Usd(asset, Finite(a), price)).value <= Rst(Usd(asset, Finite(b), price)).value
  {
    var ua := Usd(asset, Finite(a), price).x;
    var ub := Usd(asset, Finite(b), price).x;
    if asset == BNB {
      assert a * price <= b * price by {
        assert (b - a) * price >= 0.0;
      }
    }
    assert ua <= ub;
    var ra := Rst(Finite(ua)).value;
    var rb := Rst(Finite(ub)).value;
    assert ra as real <= ub * RATE as real < rb as real + 1.0;
  }

  /** The three quick-amount buttons for an asset: one, five and ten units,
      where a unit is 1 BNB or 100 USDT. */
  function Quicks(asset: Asset): (r: seq<real>)
    ensures |r| == 3
    ensures r[0] == (if asset == BNB then 1.0 else 100.0)
    ensures r[1] == 5.0 * r[0] && r[2] == 10.0 * r[0]
    ensures 0.0 < r[0] < r[1] < r[2]
  {
    if asset == BNB then [1.0, 5.0, 10.0] else [100.0, 500.0, 1000.0]
  }

  /** `Number(e.target.value || 0)`: the empty text reads as 0, other text
      goes through `Number` (`number`, not part of this model). */
  function AmountFromInput(text: string, number: string -> Num): (r: Num)
    ensures text == "" ==> r == Finite(0.0)
    ensures text != "" ==> r == number(text)
  {
    if text == "" then Finite(0.0) else number(text)
  }

  /** Clearing the amount field shows an estimate of 0 whatever the asset and
      the price; the estimate is NaN only for a non-empty text that `Number`
      cannot read. */
  lemma EmptyAmountEstimate(asset: Asset, price: real, text: string, number: string -> Num)
    ensures text == "" ==> Rst(Usd(asset, AmountFromInput(text, number), price)) == Some(0)
    ensures Rst(Usd(asset, AmountFromInput(text, number), price)).None? <==> text != "" && number(text).NaN?
  {
  }

  /** 0 Approve, 1 Contribute, 2 Claim. */
  type Step = s: int | 0 <= s <= 2

  /** The step after `next()`: it moves one stage on and stays at Claim. */
  function NextStep(s: Step): (r: Step)
    ensures s < 2 ==> r == s + 1
    ensures s == 2 ==> r == 2
  {
    if s == 0 then 1 else if s == 1 then 2 else 2
  }

  /** The toast `next()` shows, chosen by the step before the call. */
  function StepToast(s: Step): string {
    if s == 0 then "Approve 成功"
    else if s == 1 then "Contribute 已提交"
    else "已领取"
  }

  /** The stage names of the step bar, in order. */
  const Stages: seq<string> := ["Approve", "Contribute", "Claim"]

  /** The main button's label. */
  function StepLabel(s: Step): (r: string)
    ensures r == Stages[s]
  {
    if s == 0 then "Approve" else if s == 1 then "Contribute" else "Claim"
  }

  /** Stage `k` of the step bar is lit. */
  predicate Highlighted(s: Step, k: int) {
    s >= k
  }

  /** The lit stages are always a prefix of the bar, ending at the current step. */
  lemma HighlightedPrefix(s: Step)
    ensures forall k :: 0 <= k < |Stages| ==> (Highlighted(s, k) <==> k <= s)
    ensures forall j, k :: 0 <= j <= k < |Stages| && Highlighted(s, k) ==> Highlighted(s, j)
  {
  }

  /** The step after `n` presses of the main button from the start. */
  function StepAfter(n: nat): Step {
    if n == 0 then 0 else NextStep(StepAfter(n - 1))
  }

  /** The toasts of `n` presses from the start, oldest first. */
  function ToastsAfter(n: nat): (r: seq<string>)
    ensures |r| == n
  {
    if n == 0 then [] else ToastsAfter(n - 1) + [StepToast(StepAfter(n - 1))]
  }

  /** Pressing the button goes 0, 1, 2 and then stays at 2. */
  lemma {:induction false} StepSaturates(n: nat)
    ensures StepAfter(n) == if n < 2 then n else 2
  {
    if n > 0 {
      StepSaturates(n - 1);
    }
  }

  /** Press i shows the Approve toast, then Contribute, then the Claim toast
      on every later press. */
  lemma {:induction false} ToastSequence(n: nat)
    ensures forall i :: 0 <= i < n ==>
              ToastsAfter(n)[i] == (if i == 0 then "Approve 成功" else if i == 1 then "Contribute 已提交" else "已领取")
  {
    if n > 0 {
      ToastSequence(n - 1);
      StepSaturates(n - 1);
      assert ToastsAfter(n) == ToastsAfter(n - 1) + [StepToast(StepAfter(n - 1))];
    }
  }

  /** `useScrollProgress`: 0 when there is nothing to scroll, otherwise the
      scrolled share of the scrollable height. */
  function ScrollProgress(scrollTop: real, scrollHeight: real, clientHeight: real): (r: real)
    ensures scrollHeight == clientHeight ==> r == 0.0
    ensures scrollHeight != clientHeight ==> r * (scrollHeight - clientHeight) == scrollTop
  {
    var height := scrollHeight - clientHeight;
    if height == 0.0 then 0.0 else scrollTop / height
  }

  /** Within the scrollable range the progress lies between 0 and 1. */
  lemma ScrollProgressBounds(scrollTop: real, scrollHeight: real, clientHeight: real)
    requires 0.0 <= scrollTop <= scrollHeight - clientHeight
    ensures 0.0 <= ScrollProgress(scrollTop, scrollHeight, clientHeight) <= 1.0
  {
    var height := scrollHeight - clientHeight;
    if height != 0.0 {
      var r := scrollTop / height;
      assert r * height == scrollTop;
      assert (1.0 - r) * height == height - scrollTop;
    }
  }

  datatype Toast = Toast(id: int, text: string)

  /** `t.filter((x) => x.id !== id)`. */
  function WithoutId(ts: seq<Toast>, id: int): (r: seq<Toast>)
    ensures forall x :: x in r <==> x in ts && x.id != id
    ensures |r| <= |ts|
  {
    if ts == [] then []
    else if ts[0].id != id then [ts[0]] + WithoutId(ts[1..], id)
    else WithoutId(ts[1..], id)
  }

  /** Filtering works piece by piece, so the kept toasts stay in order. */
  lemma {:induction false} WithoutIdConcat(a: seq<Toast>, b: seq<Toast>, id: int)
    ensures WithoutId(a + b, id) == WithoutId(a, id) + WithoutId(b, id)
  {
    if a == [] {
      assert a + b == b;
    } else {
      assert (a + b)[0] == a[0] && (a + b)[1..] == a[1..] + b;
      WithoutIdConcat(a[1..], b, id);
    }
  }

  /** A list with no toast of that id is left as it is. */
  lemma {:induction false} WithoutIdNoop(ts: seq<Toast>, id: int)
    requires forall i :: 0 <= i < |ts| ==> ts[i].id != id
    ensures WithoutId(ts, id) == ts
  {
    if ts != [] {
      WithoutIdNoop(ts[1..], id);
    }
  }

  /** A toast pushed with a fresh id and then expired leaves the list as it
      was before the push. */
  lemma PushThenExpire(ts: seq<Toast>, id: int, text: string)
    requires forall i :: 0 <= i < |ts| ==> ts[i].id != id
    ensures WithoutId(ts + [Toast(id, text)], id) == ts
  {
    WithoutIdConcat(ts, [Toast(id, text)], id);
    WithoutIdNoop(ts, id);
  }

  /** `useToast`'s list. The id is `Date.now()`, passed in by the caller. */
  class ToastList {
    var items: seq<Toast>

    constructor ()
      ensures items == []
    {
      items := [];
    }

    /** `push(text)`: the toast goes to the end. */
    method Push(id: int, text: string)
      modifies this
      ensures items == old(items) + [Toast(id, text)]
    {
      items := items + [Toast(id, text)];
    }

    /** The timer of `push`: every toast with that id goes, the rest stay in order. */
    method Expire(id: int)
      modifies this
      ensures items == WithoutId(old(items), id)
    {
      items := WithoutId(items, id);
    }
  }

  /** `PrivateSalePanel`'s state. */
  class SalePanel {
    var asset: Asset
    var amount: Num
    var bnbPrice: real
    var step: Step

    constructor ()
      ensures asset == BNB && amount == Finite(1.0) && bnbPrice == DefaultPrice && step == 0
    {
      asset := BNB;
      amount := Finite(1.0);
      bnbPrice := DefaultPrice;
      step := 0;
    }

    /** The estimate shown under the amount. */
    function Estimate(): (r: Option<int>)
      reads this
    {
      Rst(Usd(asset, amount, bnbPrice))
    }

    /** `next()`: one toast chosen by the current step, then the step moves on. */
    method Next(toasts: ToastList, id: int)
      modifies this, toasts
      ensures toasts.items == old(toasts.items) + [Toast(id, StepToast(old(step)))]
      ensures step == NextStep(old(step))
      ensures asset == old(asset) && amount == old(amount) && bnbPrice == old(bnbPrice)
    {
      toasts.Push(id, StepToast(step));
      step := NextStep(step);
    }

    method SelectAsset(a: Asset)
      modifies this
      ensures asset == a
      ensures amount == old(amount) && bnbPrice == old(bnbPrice) && step == old(step)
    {
      asset := a;
    }

    /** A quick-amount button of the current asset. */
    method PickQuick(i: int)
      requires 0 <= i < 3
      modifies this
      ensures amount == Finite(Quicks(asset)[i])
      ensures asset == old(asset) && bnbPrice == old(bnbPrice) && step == old(step)
    {
      amount := Finite(Quicks(asset)[i]);
    }

    /** The amount field's `onChange`. */
    method EnterAmount(text: string, number: string -> Num)
      modifies this
      ensures amount == AmountFromInput(text, number)
      ensures asset == old(asset) && bnbPrice == old(bnbPrice) && step == old(step)
    {
      amount := AmountFromInput(text, number);
    }

    /** A price poll: a parsed price replaces the old one; NaN or a failed
        request (None) keeps it. */
    method PriceFetched(p: Option<real>)
      modifies this
      ensures bnbPrice == if p.Some? then p.value else old(bnbPrice)
      ensures asset == old(asset) && amount == old(amount) && step == old(step)
    {
      if p.Some? {
        bnbPrice := p.value;
      }
    }
  }
}
