/**
 * Step navigation shared by the two multi-step create forms: the Next and
 * Previous buttons and a click on a step circle of the `Stepper`.
 */
module Stepper {

  /** `goToNextStep`: advance by one unless already on the last of `count` steps. */
  function Next(step: int, count: int): (r: int)
    ensures r == step + 1 <==> step < count - 1
    ensures r != step + 1 ==> r == step
    ensures 0 <= step < count ==> 0 <= r < count
  {
    if step < count - 1 then step + 1 else step
  }

  /** `goToPreviousStep`: go back by one unless already on the first step. */
  function Previous(step: int): (r: int)
    ensures r == step - 1 <==> step > 0
    ensures r != step - 1 ==> r == step
    ensures step >= 0 ==> r >= 0
  {
    if step > 0 then step - 1 else step
  }

  /** A click on step circle `index`: only an earlier step is selectable;
      the current and later circles do nothing. */
  function Click(step: int, index: int): (r: int)
    ensures r <= step
    ensures r == index <==> index <= step
    ensures index >= step ==> r == step
  {
    if index < step then index else step
  }

  /** Next followed by Previous returns to the same step, except on the last step. */
  lemma NextThenPrevious(step: int, count: int)
    requires 0 <= step < count - 1
    ensures Previous(Next(step, count)) == step
  {
  }

  /** Previous followed by Next returns to the same step, except on the first step. */
  lemma PreviousThenNext(step: int, count: int)
    requires 0 < step < count
    ensures Next(Previous(step), count) == step
  {
  }

  /** Any sequence of button presses and circle clicks keeps the step within `[0, count)`. */
  datatype Action = NextPressed | PreviousPressed | CircleClicked(index: nat)

  function Run(step: int, count: int, actions: seq<Action>): int
    decreases |actions|
  {
    if actions == [] then step
    else
      var s := match actions[0]
        case NextPressed => Next(step, count)
        case PreviousPressed => Previous(step)
        case CircleClicked(i) => Click(step, i);
      Run(s, count, actions[1..])
  }

  lemma {:induction false} RunStaysInRange(step: int, count: int, actions: seq<Action>)
    requires 0 <= step < count
    ensures 0 <= Run(step, count, actions) < count
    decreases |actions|
  {
    if actions != [] {
      var s := match actions[0]
        case NextPressed => Next(step, count)
        case PreviousPressed => Previous(step)
        case CircleClicked(i) => Click(step, i);
      RunStaysInRange(s, count, actions[1..]);
    }
  }
}
