/**
 * ComplexCPPNNEAT/CPPNNetworkNeuron.cs and CPPNNetwork.cs (CPPNNEAT/CPPNNEAT/ holds the same
 * classes): the phenotype network a genome is expressed as.
 *
 * The four neuron classes of the source (bias, input, output and its subclass hidden) are one
 * class here with a `kind`; an output or hidden neuron evaluates its incoming synapses on demand,
 * guarded by `isCalculating` so that a cycle reads the neuron's previous activation instead of
 * recursing forever.
 */
module Network {
  import opened Wrappers
  import opened Values

  datatype NeuronKind = BiasNeuron | InputNeuron | OutputNeuron | HiddenNeuron {
    /** Output and hidden neurons have synapses and an activation function. */
    predicate Computes() { this == OutputNeuron || this == HiddenNeuron }
  }

  datatype Synapse = Synapse(neuron: NetworkNeuron, weight: Complex)

  /** Σ inputs[k] × weight of synapse k: the `net` the activation loop accumulates. */
  function WeightedSum(inputs: seq<Complex>, synapses: seq<Synapse>): Complex
    requires |inputs| == |synapses|
  {
    if inputs == [] then Zero
    else
      var n := |inputs| - 1;
      Add(WeightedSum(inputs[..n], synapses[..n]), Mul(inputs[n], synapses[n].weight))
  }

  class NetworkNeuron {
    const kind: NeuronKind
    const activationFunction: Complex -> Complex
    /** The value last given to an input neuron by `SetInput`. */
    var input: Complex
    var synapses: seq<Synapse>
    var isCalculating: bool
    var previousActivation: Complex

    constructor (kind: NeuronKind, activationFunction: Complex -> Complex)
      ensures this.kind == kind && this.activationFunction == activationFunction
      ensures synapses == [] && !isCalculating && previousActivation == Zero && input == Zero
    {
      this.kind := kind;
      this.activationFunction := activationFunction;
      input := Zero;
      synapses := [];
      isCalculating := false;
      previousActivation := Zero;
    }

    /** `SetInput`: the value an input neuron reports from now on. */
    method SetInput(value: Complex)
      modifies this
      ensures input == value
      ensures synapses == old(synapses) && isCalculating == old(isCalculating)
      ensures previousActivation == old(previousActivation)
    {
      input := value;
    }

    /** `AddChild`: one more incoming synapse, appended after the existing ones. */
    method AddChild(neuron: NetworkNeuron, weight: Complex)
      modifies this
      ensures synapses == old(synapses) + [Synapse(neuron, weight)]
      ensures input == old(input) && isCalculating == old(isCalculating)
      ensures previousActivation == old(previousActivation)
    {
      synapses := synapses + [Synapse(neuron, weight)];
    }

    /** `Reset`: forget the activation a cycle would read. */
    method Reset()
      modifies this
      ensures previousActivation == Zero
      ensures input == old(input) && synapses == old(synapses) && isCalculating == old(isCalculating)
    {
      previousActivation := Zero;
    }

    /** The `Activation` getter. A bias neuron gives 1 and an input neuron its input. An output
        or hidden neuron that is already being evaluated (a cycle led back to it) gives its
        previous activation and changes nothing; otherwise it evaluates every synapse in order,
        applies its function to the weighted sum, stores the result as its previous activation
        and clears the guard again. No neuron's input, synapses or guard changes, nor the
        previous activation of one being evaluated. `inputs` are the activations its synapses
        delivered (see `Delivered`). In a network without cycles (`rank` orders it) whose
        evaluation is not under way below this neuron, the result is `Eval`'s. */
    method Activation(ghost net: set<NetworkNeuron>, ghost rank: map<NetworkNeuron, nat>)
      returns (v: Complex, ghost inputs: seq<Complex>)
      requires this in net && Closed(net)
      modifies net
      ensures Closed(net) && Wirings(net) == old(Wirings(net)) && Busy(net) == old(Busy(net))
      ensures forall n :: n in Busy(net) ==> n.previousActivation == old(n.previousActivation)
      ensures !kind.Computes() ==> previousActivation == old(previousActivation)
      ensures kind == BiasNeuron ==> v == One
      ensures kind == InputNeuron ==> v == input
      ensures kind.Computes() && old(isCalculating) ==> v == previousActivation == old(previousActivation)
      ensures kind.Computes() && !old(isCalculating) ==>
        |inputs| == |synapses| && v == activationFunction(WeightedSum(inputs, synapses)) && previousActivation == v
      ensures kind.Computes() && !old(isCalculating) ==> forall k :: 0 <= k < |synapses| ==>
        Delivered(synapses[k].neuron, this, inputs[k], Wirings(net), old(Busy(net)), old(Previous(net)))
      ensures Ranked(Wirings(net), rank) && Calm(net, rank, this) ==> v == Eval(this, Wirings(net), rank)
      decreases |NotCalculating(net)|, 2
    {
      inputs := [];
      if kind == BiasNeuron {
        return One, inputs;
      } else if kind == InputNeuron {
        return input, inputs;
      }
      if isCalculating {
        return previousActivation, inputs;
      }
      v, inputs := Evaluate(net, rank);
    }

    /** The evaluation proper of an output or hidden neuron that is not yet being evaluated. */
    method Evaluate(ghost net: set<NetworkNeuron>, ghost rank: map<NetworkNeuron, nat>)
      returns (v: Complex, ghost inputs: seq<Complex>)
      requires this in net && Closed(net) && kind.Computes() && !isCalculating
      modifies net
      ensures Closed(net) && Wirings(net) == old(Wirings(net)) && Busy(net) == old(Busy(net))
      ensures forall n :: n in Busy(net) ==> n.previousActivation == old(n.previousActivation)
      ensures |inputs| == |synapses| && v == activationFunction(WeightedSum(inputs, synapses)) && previousActivation == v
      ensures forall k :: 0 <= k < |synapses| ==>
        Delivered(synapses[k].neuron, this, inputs[k], Wirings(net), old(Busy(net)), old(Previous(net)))
      ensures Ranked(Wirings(net), rank) && Calm(net, rank, this) ==> v == Eval(this, Wirings(net), rank)
      decreases |NotCalculating(net)|, 1
    {
      ghost var w := Wirings(net);
      ghost var busy := Busy(net);
      ghost var prev := Previous(net);
      ghost var calm := Ranked(w, rank) && Quiet(net, rank, busy, this);
      ghost var before := NotCalculating(net);
      Enter(net);
      assert NotCalculating(net) == before - {this};
      var net';
      net', inputs := SumSynapses(net, rank, w, busy, prev, calm);
      v := activationFunction(net');
      Leave(net, v, busy);
      if calm {
        EvalOfSum(this, w, rank, inputs, v);
      }
    }

    /** The start of an evaluation: the guard is raised. */
    method Enter(ghost net: set<NetworkNeuron>)
      requires this in net && !isCalculating
      modifies this
      ensures isCalculating && previousActivation == old(previousActivation)
      ensures Wirings(net) == old(Wirings(net)) && Busy(net) == old(Busy(net)) + {this}
      ensures Previous(net) == old(Previous(net))
    {
      isCalculating := true;
      WiringsAre(net, old(Wirings(net)));
      BusyAre(net, old(Busy(net)) + {this});
      assert Previous(net) == old(Previous(net));
    }

    /** The end of an evaluation: the guard is cleared and the result kept. */
    method Leave(ghost net: set<NetworkNeuron>, v: Complex, ghost busy: set<NetworkNeuron>)
      requires this in net && this !in busy && Busy(net) == busy + {this}
      modifies this
      ensures !isCalculating && previousActivation == v
      ensures Wirings(net) == old(Wirings(net)) && Busy(net) == busy
      ensures forall n :: n in net && n != this ==> n.previousActivation == old(n.previousActivation)
    {
      isCalculating := false;
      previousActivation := v;
      WiringsAre(net, old(Wirings(net)));
      BusyAre(net, busy);
    }

    /** The loop of `Activation`, run while this neuron's evaluation is under way (`busy` are the
        neurons being evaluated, `prev` their previous activations): every synapse's neuron is
        evaluated in order and its activation, times the synapse's weight, is added to the sum.
        When `calm`, nothing below this neuron is being evaluated and each activation is
        `Eval`'s. */
    method SumSynapses(ghost net: set<NetworkNeuron>, ghost rank: map<NetworkNeuron, nat>,
                       ghost w: map<NetworkNeuron, Wiring>, ghost busy: set<NetworkNeuron>,
                       ghost prev: map<NetworkNeuron, Complex>, ghost calm: bool)
      returns (sum: Complex, ghost inputs: seq<Complex>)
      requires this in net && Closed(net) && w == Wirings(net) && Busy(net) == busy + {this}
      requires forall n :: n in Busy(net) ==> n in prev && n.previousActivation == prev[n]
      requires calm ==> Ranked(w, rank) && Quiet(net, rank, busy, this)
      modifies net
      ensures Closed(net) && Wirings(net) == w && Busy(net) == busy + {this}
      ensures forall n :: n in Busy(net) ==> n in prev && n.previousActivation == prev[n]
      ensures |inputs| == |synapses| && sum == WeightedSum(inputs, synapses)
      ensures forall k :: 0 <= k < |synapses| ==> Delivered(synapses[k].neuron, this, inputs[k], w, busy, prev)
      ensures calm ==> inputs == ChildValues(this, w, rank)
      decreases |NotCalculating(net)|, 5
    {
      sum := Zero;
      inputs := [];
      var k := 0;
      while k < |synapses|
        invariant 0 <= k <= |synapses| && |inputs| == k
        invariant Closed(net) && Wirings(net) == w && Busy(net) == busy + {this} && synapses == w[this].synapses
        invariant forall n :: n in Busy(net) ==> n in prev && n.previousActivation == prev[n]
        invariant sum == WeightedSum(inputs, synapses[..k])
        invariant forall j :: 0 <= j < k ==> Delivered(synapses[j].neuron, this, inputs[j], w, busy, prev)
        invariant calm ==> forall j :: 0 <= j < k ==> synapses[j].neuron in w && inputs[j] == Eval(synapses[j].neuron, w, rank)
      {
        sum, inputs := SumStep(net, rank, w, busy, prev, calm, sum, inputs, k);
        k := k + 1;
      }
      assert synapses[..k] == synapses;
    }

    /** One turn of the loop of `SumSynapses`: the next synapse's neuron delivers its value,
        which is weighted and added. */
    method SumStep(ghost net: set<NetworkNeuron>, ghost rank: map<NetworkNeuron, nat>,
                   ghost w: map<NetworkNeuron, Wiring>, ghost busy: set<NetworkNeuron>,
                   ghost prev: map<NetworkNeuron, Complex>, ghost calm: bool, sum: Complex, ghost inputs: seq<Complex>, k: nat)
      returns (sum': Complex, ghost inputs': seq<Complex>)
      requires this in net && |inputs| == k < |synapses|
      requires Closed(net) && w == Wirings(net) && Busy(net) == busy + {this} && synapses == w[this].synapses
      requires forall n :: n in Busy(net) ==> n in prev && n.previousActivation == prev[n]
      requires calm ==> Ranked(w, rank) && Quiet(net, rank, busy, this)
      requires sum == WeightedSum(inputs, synapses[..|inputs|])
      requires forall j :: 0 <= j < |inputs| ==> Delivered(synapses[j].neuron, this, inputs[j], w, busy, prev)
      requires calm ==> forall j :: 0 <= j < |inputs| ==> synapses[j].neuron in w && inputs[j] == Eval(synapses[j].neuron, w, rank)
      modifies net
      ensures Closed(net) && Wirings(net) == w && Busy(net) == busy + {this} && synapses == w[this].synapses
      ensures forall n :: n in Busy(net) ==> n in prev && n.previousActivation == prev[n]
      ensures |inputs'| == |inputs| + 1 && sum' == WeightedSum(inputs', synapses[..|inputs'|])
      ensures forall j :: 0 <= j < |inputs'| ==> Delivered(synapses[j].neuron, this, inputs'[j], w, busy, prev)
      ensures calm ==> forall j :: 0 <= j < |inputs'| ==> synapses[j].neuron in w && inputs'[j] == Eval(synapses[j].neuron, w, rank)
      decreases |NotCalculating(net)|, 4
    {
      var synapse := synapses[k];
      assert synapse.neuron in net;
      assert calm ==> synapse.neuron in rank && rank[synapse.neuron] < rank[this];
      var a := Deliver(net, rank, w, busy, prev, calm, synapse.neuron);
      DeliveredNext(inputs, a, synapses, k, this, w, busy, prev);
      if calm {
        EvalNext(inputs, a, synapses, k, w, rank);
      }
      SumNext(inputs, a, synapses, k);
      sum' := Add(sum, Mul(a, synapse.weight));
      inputs' := inputs + [a];
    }

    /** One turn of `SumSynapses`: the neuron `c` of the next synapse is evaluated and its
        activation delivered. */
    method Deliver(ghost net: set<NetworkNeuron>, ghost rank: map<NetworkNeuron, nat>,
                   ghost w: map<NetworkNeuron, Wiring>, ghost busy: set<NetworkNeuron>,
                   ghost prev: map<NetworkNeuron, Complex>, ghost calm: bool, c: NetworkNeuron)
      returns (a: Complex)
      requires c in net && this in net && Closed(net) && w == Wirings(net) && Busy(net) == busy + {this}
      requires forall n :: n in Busy(net) ==> n in prev && n.previousActivation == prev[n]
      requires calm ==> Ranked(w, rank) && Quiet(net, rank, busy, this) && c in rank && rank[c] < rank[this]
      modifies net
      ensures Closed(net) && Wirings(net) == w && Busy(net) == busy + {this}
      ensures forall n :: n in Busy(net) ==> n in prev && n.previousActivation == prev[n]
      ensures Delivered(c, this, a, w, busy, prev)
      ensures calm ==> c in w && a == Eval(c, w, rank)
      decreases |NotCalculating(net)|, 3
    {
      if calm {
        assert Calm(net, rank, c) by {
          forall m | m in net && m in rank && rank[m] <= rank[c] ensures m !in busy + {this} {
          }
        }
      }
      ghost var delivered;
      a, delivered := c.Activation(net, rank);
      assert c in w;
      if c.kind == InputNeuron {
        assert w[c].input == c.input;
      }
    }
  }

  lemma DeliveredNext(inputs: seq<Complex>, a: Complex, synapses: seq<Synapse>, k: nat, parent: NetworkNeuron,
                      w: map<NetworkNeuron, Wiring>, busy: set<NetworkNeuron>, prev: map<NetworkNeuron, Complex>)
    requires |inputs| == k < |synapses|
    requires forall j :: 0 <= j < k ==> Delivered(synapses[j].neuron, parent, inputs[j], w, busy, prev)
    requires Delivered(synapses[k].neuron, parent, a, w, busy, prev)
    ensures forall j :: 0 <= j < k + 1 ==> Delivered(synapses[j].neuron, parent, (inputs + [a])[j], w, busy, prev)
  {
  }

  /** `Eval` does not depend on which ranking witnesses that the network has no cycle. */
  lemma {:induction false} EvalRankFree(n: NetworkNeuron, w: map<NetworkNeuron, Wiring>, r1: map<NetworkNeuron, nat>,
                                        r2: map<NetworkNeuron, nat>)
    requires n in w && Ranked(w, r1) && Ranked(w, r2)
    ensures Eval(n, w, r1) == Eval(n, w, r2)
    decreases r1[n]
  {
    if n.kind.Computes() {
      var s := w[n].synapses;
      forall k | 0 <= k < |s| ensures ChildValues(n, w, r1)[k] == ChildValues(n, w, r2)[k] {
        EvalRankFree(s[k].neuron, w, r1, r2);
      }
      assert ChildValues(n, w, r1) == ChildValues(n, w, r2);
    }
  }

  /** A computing neuron whose function is applied to what `Eval` gives its synapses has `Eval`'s
      value. */
  lemma EvalOfSum(n: NetworkNeuron, w: map<NetworkNeuron, Wiring>, rank: map<NetworkNeuron, nat>,
                  inputs: seq<Complex>, v: Complex)
    requires n in w && Ranked(w, rank) && n.kind.Computes() && inputs == ChildValues(n, w, rank)
    requires v == n.activationFunction(WeightedSum(inputs, w[n].synapses))
    ensures v == Eval(n, w, rank)
  {
  }

  lemma EvalNext(inputs: seq<Complex>, a: Complex, synapses: seq<Synapse>, k: nat, w: map<NetworkNeuron, Wiring>,
                 rank: map<NetworkNeuron, nat>)
    requires |inputs| == k < |synapses| && Ranked(w, rank)
    requires forall j :: 0 <= j < k ==> synapses[j].neuron in w && inputs[j] == Eval(synapses[j].neuron, w, rank)
    requires synapses[k].neuron in w && a == Eval(synapses[k].neuron, w, rank)
    ensures forall j :: 0 <= j < k + 1 ==> synapses[j].neuron in w && (inputs + [a])[j] == Eval(synapses[j].neuron, w, rank)
  {
  }

  lemma SumNext(inputs: seq<Complex>, a: Complex, synapses: seq<Synapse>, k: nat)
    requires |inputs| == k < |synapses|
    ensures WeightedSum(inputs + [a], synapses[..k + 1]) == Add(WeightedSum(inputs, synapses[..k]), Mul(a, synapses[k].weight))
  {
    assert synapses[..k + 1][..k] == synapses[..k];
    assert (inputs + [a])[..k] == inputs;
  }

  /** The neurons of `net` whose evaluation is under way. */
  ghost function Busy(net: set<NetworkNeuron>): set<NetworkNeuron>
    reads net
  {
    set n | n in net && n.isCalculating
  }

  lemma WiringsAre(net: set<NetworkNeuron>, w: map<NetworkNeuron, Wiring>)
    requires w.Keys == net && forall n :: n in net ==> w[n] == Wiring(n.input, n.synapses)
    ensures Wirings(net) == w
  {
  }

  lemma BusyAre(net: set<NetworkNeuron>, busy: set<NetworkNeuron>)
    requires forall n :: n in net ==> (n.isCalculating <==> n in busy)
    requires busy <= net
    ensures Busy(net) == busy
  {
  }

  /** The previous activation of every neuron of `net`. */
  ghost function Previous(net: set<NetworkNeuron>): (p: map<NetworkNeuron, Complex>)
    reads net
    ensures p.Keys == net
  {
    map n | n in net :: n.previousActivation
  }

  /** What neuron `c`, read by `parent`'s evaluation, delivers as `a`: 1 for a bias neuron, its
      input for an input neuron, and, for `parent` itself or a neuron whose evaluation was
      under way (`busy`), its previous activation (`prev`). */
  ghost predicate Delivered(c: NetworkNeuron, parent: NetworkNeuron, a: Complex, w: map<NetworkNeuron, Wiring>,
                            busy: set<NetworkNeuron>, prev: map<NetworkNeuron, Complex>)
  {
    && (c.kind == BiasNeuron ==> c in w && a == One)
    && (c.kind == InputNeuron ==> c in w && a == w[c].input)
    && (c.kind.Computes() && (c == parent || c in busy) ==> c in prev && a == prev[c])
  }

  /** What an evaluation reads of a neuron besides its kind and function: its input and its
      synapses. */
  datatype Wiring = Wiring(input: Complex, synapses: seq<Synapse>)

  ghost function Wirings(net: set<NetworkNeuron>): (w: map<NetworkNeuron, Wiring>)
    reads net
    ensures w.Keys == net
  {
    map n | n in net :: Wiring(n.input, n.synapses)
  }

  /** `rank` orders the network: every synapse comes from a neuron of lower rank, so there is
      no cycle. */
  ghost predicate Ranked(w: map<NetworkNeuron, Wiring>, rank: map<NetworkNeuron, nat>) {
    forall n :: n in w ==> n in rank && forall k :: 0 <= k < |w[n].synapses| ==>
      var c := w[n].synapses[k].neuron; c in w && c in rank && rank[c] < rank[n]
  }

  /** No neuron of `net` ranked at most as high as `n` is being evaluated. */
  ghost predicate Calm(net: set<NetworkNeuron>, rank: map<NetworkNeuron, nat>, n: NetworkNeuron)
    reads net
  {
    Quiet(net, rank, Busy(net), n)
  }

  /** No neuron of `net` ranked at most as high as `n` is among `busy`. */
  ghost predicate Quiet(net: set<NetworkNeuron>, rank: map<NetworkNeuron, nat>, busy: set<NetworkNeuron>,
                        n: NetworkNeuron)
  {
    n in rank && forall m :: m in net && m in rank && rank[m] <= rank[n] ==> m !in busy
  }

  /** The activation of `n` in a network without cycles: 1 for a bias neuron, the input of an
      input neuron, and otherwise the function of the weighted sum of what its synapses'
      neurons evaluate to. */
  ghost function Eval(n: NetworkNeuron, w: map<NetworkNeuron, Wiring>, rank: map<NetworkNeuron, nat>): Complex
    requires n in w && Ranked(w, rank)
    decreases rank[n], 1
  {
    match n.kind
    case BiasNeuron => One
    case InputNeuron => w[n].input
    case _ => n.activationFunction(WeightedSum(ChildValues(n, w, rank), w[n].synapses))
  }

  /** What each synapse of `n` delivers to it, in order. */
  ghost function ChildValues(n: NetworkNeuron, w: map<NetworkNeuron, Wiring>, rank: map<NetworkNeuron, nat>)
    : (r: seq<Complex>)
    requires n in w && Ranked(w, rank)
    ensures |r| == |w[n].synapses|
    ensures forall k :: 0 <= k < |r| ==> r[k] == Eval(w[n].synapses[k].neuron, w, rank)
    decreases rank[n], 0
  {
    seq(|w[n].synapses|, k requires 0 <= k < |w[n].synapses| => Eval(w[n].synapses[k].neuron, w, rank))
  }

  /** Every synapse of a neuron in `net` comes from a neuron in `net`. */
  ghost predicate Closed(net: set<NetworkNeuron>)
    reads net
  {
    forall n, k :: n in net && 0 <= k < |n.synapses| ==> n.synapses[k].neuron in net
  }

  /** The neurons of `net` whose evaluation is not under way: fewer at every nested call. */
  ghost function NotCalculating(net: set<NetworkNeuron>): set<NetworkNeuron>
    reads net
  {
    net - Busy(net)
  }

  /** CPPNNetwork: the neurons, the input neurons in the order they were added, the hidden
      neurons and the (last added) output neuron. */
  class CPPNNetwork {
    var neurons: set<NetworkNeuron>
    var inputNeurons: seq<NetworkNeuron>
    var hiddenNeurons: seq<NetworkNeuron>
    var outputNeuron: NetworkNeuron?

    /** The network is closed under synapses, its lists hold its own neurons of the right
        kind, and no evaluation is in progress between calls. */
    ghost predicate Valid()
      reads this, neurons
    {
      Closed(neurons) &&
      (forall k :: 0 <= k < |inputNeurons| ==> inputNeurons[k] in neurons && inputNeurons[k].kind == InputNeuron) &&
      (forall k :: 0 <= k < |hiddenNeurons| ==> hiddenNeurons[k] in neurons && hiddenNeurons[k].kind == HiddenNeuron) &&
      (outputNeuron != null ==> outputNeuron in neurons && outputNeuron.kind == OutputNeuron) &&
      (forall n :: n in neurons ==> !n.isCalculating)
    }

    constructor ()
      ensures Valid() && neurons == {} && inputNeurons == [] && hiddenNeurons == [] && outputNeuron == null
    {
      neurons := {};
      inputNeurons := [];
      hiddenNeurons := [];
      outputNeuron := null;
    }

    /** `AddNeuron`: into the neuron set, and by its exact kind onto the input list, into the
        output slot (replacing any earlier one) or onto the hidden list; a bias neuron only
        joins the set. An input neuron added twice is listed twice. */
    method AddNeuron(n: NetworkNeuron)
      requires Valid() && !n.isCalculating
      requires forall k :: 0 <= k < |n.synapses| ==> n.synapses[k].neuron in neurons + {n}
      modifies this
      ensures Valid() && neurons == old(neurons) + {n}
      ensures inputNeurons == old(inputNeurons) + (if n.kind == InputNeuron then [n] else [])
      ensures hiddenNeurons == old(hiddenNeurons) + (if n.kind == HiddenNeuron then [n] else [])
      ensures outputNeuron == if n.kind == OutputNeuron then n else old(outputNeuron)
    {
      neurons := neurons + {n};
      if n.kind == InputNeuron {
        inputNeurons := inputNeurons + [n];
      } else if n.kind == OutputNeuron {
        outputNeuron := n;
      } else if n.kind == HiddenNeuron {
        hiddenNeurons := hiddenNeurons + [n];
      }
    }

    /** `AddLink`: a synapse from `from` into `to` when both belong to the network; nothing
        otherwise. `to as CPPNOutputNeuron` is null for a bias or input neuron, and the call on
        it throws. */
    method AddLink(from: NetworkNeuron, to: NetworkNeuron, weight: Complex) returns (r: Result<bool>)
      requires Valid()
      modifies to
      ensures Valid()
      ensures r.Failure? <==> from in neurons && to in neurons && !to.kind.Computes()
      ensures r == Success(true) ==> to.synapses == old(to.synapses) + [Synapse(from, weight)]
      ensures r.Success? <==> !r.Failure?
      ensures r != Success(true) ==> to.synapses == old(to.synapses)
      ensures r == Success(true) <==> from in neurons && to in neurons && to.kind.Computes()
    {
      if from in neurons && to in neurons {
        if !to.kind.Computes() {
          return Failure("NullReferenceException");
        }
        to.AddChild(from, weight);
        return Success(true);
      }
      return Success(false);
    }

    /** `GetActivation`: the input array must have one value per input neuron; the values are
        loaded in order and the output neuron is evaluated. In a network without cycles the
        result is `Eval` of the output neuron over the loaded inputs. */
    method GetActivation(input: seq<Complex>, ghost rank: map<NetworkNeuron, nat>) returns (r: Result<Complex>)
      requires Valid()
      modifies neurons
      ensures Valid()
      ensures r.Failure? <==> |input| != |inputNeurons| || outputNeuron == null
      ensures |input| == |inputNeurons| ==> forall k :: 0 <= k < |input| && LastOccurrence(inputNeurons, k) ==>
        inputNeurons[k].input == input[k]
      ensures r.Success? ==> outputNeuron.previousActivation == r.value
      ensures r.Success? && Ranked(Wirings(neurons), rank) ==> r.value == Eval(outputNeuron, Wirings(neurons), rank)
    {
      if |input| != |inputNeurons| {
        return Failure("ApplicationException");
      }
      var i := 0;
      while i < |input|
        invariant 0 <= i <= |input|
        invariant Valid()
        invariant forall k :: 0 <= k < i && LastOccurrenceBefore(inputNeurons, k, i) ==> inputNeurons[k].input == input[k]
      {
        inputNeurons[i].SetInput(input[i]);
        i := i + 1;
      }
      assert forall k :: 0 <= k < |input| && LastOccurrence(inputNeurons, k) ==> LastOccurrenceBefore(inputNeurons, k, |input|);
      if outputNeuron == null {
        return Failure("NullReferenceException");
      }
      var v, _ := outputNeuron.Activation(neurons, rank);
      return Success(v);
    }

    /** `Reset`: every hidden neuron and the output neuron forget their previous activation;
        with no output neuron the last call throws. */
    method Reset() returns (ok: bool)
      requires Valid()
      modifies neurons
      ensures Valid() && ok == (outputNeuron != null)
      ensures forall k :: 0 <= k < |hiddenNeurons| ==> hiddenNeurons[k].previousActivation == Zero
      ensures ok ==> outputNeuron.previousActivation == Zero
      ensures forall n :: n in neurons ==> n.input == old(n.input) && n.synapses == old(n.synapses)
    {
      var i := 0;
      while i < |hiddenNeurons|
        invariant 0 <= i <= |hiddenNeurons| && Valid()
        invariant forall k :: 0 <= k < i ==> hiddenNeurons[k].previousActivation == Zero
        invariant forall n :: n in neurons ==> n.input == old(n.input) && n.synapses == old(n.synapses)
      {
        hiddenNeurons[i].Reset();
        i := i + 1;
      }
      if outputNeuron == null {
        return false;
      }
      outputNeuron.Reset();
      return true;
    }

    /** `NeuronCount`. */
    function NeuronCount(): (c: nat)
      reads this
      ensures c == |neurons|
    {
      |neurons|
    }
  }

  /** Position `k` is the last place neuron `s[k]` occurs. */
  predicate LastOccurrence(s: seq<NetworkNeuron>, k: int)
    requires 0 <= k < |s|
  {
    forall j :: k < j < |s| ==> s[j] != s[k]
  }

  /** Position `k` is the last place neuron `s[k]` occurs among the first `i` entries. */
  predicate LastOccurrenceBefore(s: seq<NetworkNeuron>, k: int, i: int)
    requires 0 <= k < i <= |s|
  {
    forall j :: k < j < i ==> s[j] != s[k]
  }
}
