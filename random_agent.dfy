/**
 * The baseline agent: it keeps no state and draws uniformly among the
 * actions it is offered, whatever their type. Its observation and episode
 * hooks do nothing, so only the choice is modelled.
 */
module RandomAgent {
  import opened Optional
  import opened Chance

  /** A uniform draw among `actions` selected by `roll`; no action when none is offered. */
  function ChooseAction<T>(actions: seq<T>, roll: real): (r: Option<T>)
    requires IsRoll(roll)
    ensures r.Some? <==> |actions| > 0
    ensures r.Some? ==> r.value in actions
  {
    var totalActions := |actions|;
    if totalActions > 0 then
      var rnd := Pick(totalActions, roll);
      Some(actions[rnd])
    else
      None
  }

  /** Every offered position is drawn by some roll: the draw can reach all of them. */
  lemma ChooseActionCovers<T>(actions: seq<T>, k: nat)
    requires k < |actions|
    ensures exists roll :: IsRoll(roll) && ChooseAction(actions, roll) == Some(actions[k])
  {
    PickCovers(|actions|, k);
    var roll := k as real / |actions| as real;
    assert ChooseAction(actions, roll) == Some(actions[k]);
  }
}
