/** What the plugins require of a node, put together by the daemon. */
module Requirements {
  import opened Base
  import M = MellanoxPlugin
  import H = NodeHandshake

  /** What a plugin's own checks found; an Error is a check that failed. */
  datatype Plugin =
    | Generic(needDrain: bool, needReboot: Outcome<bool>)
    | K8s(targetNeedsReboot: Outcome<bool>)
    | MellanoxNics(input: M.Input)
    | Virtual(needDrain: bool)
    | Intel

  predicate Possible(p: Plugin) { p.MellanoxNics? ==> M.Possible(p.input) }

  /** OnNodeStateChange of each plugin: drain and reboot. */
  function Answer(p: Plugin): Outcome<(bool, bool)>
    requires Possible(p)
  {
    match p
    case Generic(drain, reboot) => if reboot.Ok? then Ok((drain || reboot.value, reboot.value)) else Error
    case K8s(reboot) => if reboot.Ok? then Ok((reboot.value, reboot.value)) else Error
    case MellanoxNics(x) => M.Reported(x)
    case Virtual(drain) => Ok((drain, false))
    case Intel => Ok((false, false))
  }

  /** The main plugin drains for either reason, the others for their own, and a failed check is an error. */
  lemma AnswersAre(drain: bool, reboot: bool)
    ensures Answer(Generic(drain, Ok(reboot))) == Ok((drain || reboot, reboot)) && Answer(Generic(drain, Error)) == Error
    ensures Answer(K8s(Ok(reboot))) == Ok((reboot, reboot)) && Answer(K8s(Error)) == Error
    ensures Answer(Virtual(drain)) == Ok((drain, false)) && Answer(Intel) == Ok((false, false))
  {
  }

  /** Every plugin that asks for a reboot asks for a drain. */
  lemma RebootImpliesDrain(p: Plugin)
    requires Possible(p)
    ensures Sound(Answer(p))
  {
  }

  predicate Sound(a: Outcome<(bool, bool)>) { a.Ok? && a.value.1 ==> a.value.0 }

  predicate SomeReboots(answers: seq<Outcome<(bool, bool)>>) {
    exists i :: 0 <= i < |answers| && answers[i].Ok? && answers[i].value.1
  }

  predicate SomeDrains(answers: seq<Outcome<(bool, bool)>>) {
    exists i :: 0 <= i < |answers| && answers[i].Ok? && answers[i].value.0
  }

  /** checkOnNodeStateChange: the main plugin's answer, then the others' until one fails. Returns reboot and drain. */
  method CheckOnNodeStateChange(main: Outcome<(bool, bool)>, additional: seq<Outcome<(bool, bool)>>)
    returns (r: Outcome<(bool, bool)>)
    ensures r.Ok? <==> main.Ok? && forall i :: 0 <= i < |additional| ==> additional[i].Ok?
    ensures r.Ok? ==> r.value == (main.value.1 || SomeReboots(additional), main.value.0 || SomeDrains(additional))
  {
    if !main.Ok? {
      return Error;
    }
    var reqDrain, reqReboot := main.value.0, main.value.1;
    for i := 0 to |additional|
      invariant forall j :: 0 <= j < i ==> additional[j].Ok?
      invariant reqReboot <==> main.value.1 || SomeReboots(additional[..i])
      invariant reqDrain <==> main.value.0 || SomeDrains(additional[..i])
    {
      assert additional[..i + 1] == additional[..i] + [additional[i]];
      if !additional[i].Ok? {
        return Error;
      }
      reqDrain := reqDrain || additional[i].value.0;
      reqReboot := reqReboot || additional[i].value.1;
    }
    assert additional[..|additional|] == additional;
    return Ok((reqReboot, reqDrain));
  }

  /**
   * The part of Reconcile that settles what is required: with systemd, every drain is followed by a reboot.
   * What comes out is always something the drain handshake may start from.
   */
  method Settle(main: Outcome<(bool, bool)>, additional: seq<Outcome<(bool, bool)>>,
                systemd: bool, modified: bool, resultExists: bool)
    returns (r: Outcome<(bool, bool)>)
    requires Sound(main) && forall i :: 0 <= i < |additional| ==> Sound(additional[i])
    ensures r.Ok? <==> main.Ok? && forall i :: 0 <= i < |additional| ==> additional[i].Ok?
    ensures r.Ok? ==> forall n: H.NodeRecord :: n.daemon.Resting? ==> H.CanStep(n, H.Observe(r.value.1, r.value.0))
    ensures r.Ok? ==> (r.value.1 <==> main.value.0 || SomeDrains(additional) || (systemd && (modified || !resultExists)))
    ensures r.Ok? ==> (r.value.0 <==> if systemd then r.value.1 else main.value.1 || SomeReboots(additional))
  {
    r := CheckOnNodeStateChange(main, additional);
    if !r.Ok? {
      return;
    }
    var (reqReboot, reqDrain) := r.value;
    if systemd {
      reqDrain := reqDrain || modified || !resultExists;
      reqReboot := reqReboot || reqDrain;
    }
    return Ok((reqReboot, reqDrain));
  }
}
