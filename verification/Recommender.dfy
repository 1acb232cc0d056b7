/** The recommender as the code keeps it: a map of per-container states, each with two
    histograms and the last timestamp seen per pod, updated in place. */
module Recommenders {
  import opened Resources
  import opened Exponentials
  import R = Recommending
  import opened DecayingHistograms

  class ContainerState {
    const cpu: DecayingHistogram
    const mem: DecayingHistogram
    var last: map<string, int>

    /** The objects this state is made of; none of them is ever replaced. */
    ghost const repr: set<object>

    /** The abstract state. */
    ghost var view: R.KeyState

    ghost predicate Valid(shs: R.Shapes)
      reads this, cpu, cpu.weights, mem, mem.weights
    {
      && this in repr && cpu in repr && cpu.weights in repr && mem in repr && mem.weights in repr
      && cpu.Valid() && mem.Valid() && cpu.shape == shs.cpu && mem.shape == shs.mem
      && cpu != mem && cpu.weights != mem.weights
      && view == R.KeyState(cpu.View(), mem.View(), last)
    }

    constructor (shs: R.Shapes)
      requires shs.Ok()
      ensures Valid(shs) && fresh(repr) && view == R.NewState(shs)
    {
      var c := new DecayingHistogram(shs.cpu);
      var m := new DecayingHistogram(shs.mem);
      cpu, mem, last := c, m, map[];
      repr := {this, c, c.weights, m, m.weights};
      view := R.NewState(shs);
    }

    method Take(shs: R.Shapes, pod: string, cpuMilli: real, memBytes: real, t: int, ghost e: R.Event)
      requires shs.Ok() && Valid(shs)
      requires e.pod == pod && e.cpu == cpuMilli && e.mem == memBytes && e.t == t
      modifies repr
      ensures Valid(shs)
      ensures R.Sized(shs, old(view)) && view == R.Take(shs, old(view), e)
    {
      if pod in last && t <= last[pod] {
        return;
      }
      last := last[pod := t];
      cpu.Observe(cpuMilli, t);
      mem.Observe(memBytes, t);
      view := R.KeyState(cpu.View(), mem.View(), last);
    }
  }

  class Recommender {
    const shapes: R.Shapes
    var states: map<R.ContainerKey, ContainerState>

    /** The abstract state: what each key's histograms and timestamps hold. */
    ghost var model: R.Model

    /** The objects of all states. */
    ghost var footprint: set<object>

    static ghost predicate Apart(k: R.ContainerKey, l: R.ContainerKey, a: ContainerState, b: ContainerState) {
      k != l ==> a.repr !! b.repr
    }

    ghost predicate Valid()
      reads this, footprint
    {
      && shapes.Ok() && this !in footprint && states.Keys == model.Keys
      && (forall k <- states :: Entry(states[k], model[k]))
      && (forall k <- states, l <- states :: Apart(k, l, states[k], states[l]))
    }

    /** A state of the map stands for its abstract value. */
    ghost predicate Entry(st: ContainerState, v: R.KeyState)
      reads this, footprint
    {
      && st in footprint && st.cpu in footprint && st.cpu.weights in footprint
      && st.mem in footprint && st.mem.weights in footprint
      && st.repr <= footprint && st.Valid(shapes) && st.view == v
    }

    /** Weights grow by the given factor per tick and double every half-life. */
    constructor (growth: real, ghost halfLife: nat)
      requires growth > 0.0 && Exp(growth, halfLife) == 2.0
      ensures Valid() && footprint == {} && model == map[] && shapes == R.ShapesFor(growth)
    {
      shapes := R.ShapesFor(growth);
      states, model, footprint := map[], map[], {};
      new;
      R.ShapesOk(growth, halfLife);
    }

    lemma ModelIsSized()
      requires Valid()
      ensures R.AllSized(shapes, model)
    {
      forall k | k in model ensures R.Sized(shapes, model[k]) {
        assert k in states;
        assert Entry(states[k], model[k]);
      }
    }

    static lemma Overwrite(m: R.Model, key: R.ContainerKey, a: R.KeyState, b: R.KeyState)
      ensures m[key := a][key := b] == m[key := b]
    {}

    /** A new empty state for a key that has none. */
    method AddState(key: R.ContainerKey) returns (state: ContainerState)
      requires Valid() && key !in model
      modifies this
      ensures Valid() && fresh(footprint - old(footprint))
      ensures key in states && state == states[key] && model == old(model)[key := R.NewState(shapes)]
    {
      state := new ContainerState(shapes);
      states := states[key := state];
      footprint := footprint + state.repr;
      model := model[key := R.NewState(shapes)];
      forall k | k in states && k != key ensures Entry(states[k], model[k]) {
        assert old(Entry(states[k], model[k]));
      }
    }

    /** The state of a key, created when there is none. */
    method StateFor(key: R.ContainerKey) returns (state: ContainerState)
      requires Valid()
      modifies this
      ensures Valid() && fresh(footprint - old(footprint))
      ensures key in states && state == states[key]
      ensures model == if key in old(model) then old(model) else old(model)[key := R.NewState(shapes)]
    {
      if key !in states {
        state := AddState(key);
      } else {
        state := states[key];
      }
    }

    /** A reading for a key that has a state; the other keys' states are untouched. */
    method Update(key: R.ContainerKey, pod: string, cpuMilli: real, memBytes: real, t: int, ghost e: R.Event)
      requires Valid() && key in states
      requires e.pod == pod && e.cpu == cpuMilli && e.mem == memBytes && e.t == t
      modifies this`model, states[key].repr
      ensures Valid()
      ensures key in old(model) && R.Sized(shapes, old(model[key]))
      ensures model == old(model)[key := R.Take(shapes, old(model[key]), e)]
    {
      var state := states[key];
      assert Entry(state, model[key]);
      state.Take(shapes, pod, cpuMilli, memBytes, t, e);
      model := model[key := state.view];
      forall k | k in states && k != key ensures Entry(states[k], model[k]) {
        assert Apart(k, key, states[k], state);
        assert old(Entry(states[k], model[k]));
        assert states[k].Valid(shapes);
      }
    }

    /** One reading; it changes the state of its own key and of no other. */
    method Observe(key: R.ContainerKey, pod: string, cpuMilli: real, memBytes: real, t: int)
      requires Valid()
      modifies this, footprint
      ensures Valid() && fresh(footprint - old(footprint))
      ensures R.AllSized(shapes, old(model))
      ensures model == R.ObserveEvent(shapes, old(model), R.Event(key, pod, cpuMilli, memBytes, t))
    {
      ModelIsSized();
      var state := StateFor(key);
      assert Entry(state, model[key]);
      ghost var e := R.Event(key, pod, cpuMilli, memBytes, t);
      Update(key, pod, cpuMilli, memBytes, t, e);
      Overwrite(old(model), key, R.NewState(shapes), R.Take(shapes, R.NewState(shapes), e));
    }

    method Recommend(key: R.ContainerKey, cpuPercentile: real, memPercentile: real)
      returns (r: Option<R.Recommendation>)
      requires Valid()
      ensures R.AllSized(shapes, model)
      ensures r == R.Recommend(shapes, model, key, cpuPercentile, memPercentile)
    {
      ModelIsSized();
      if key !in states || states[key].cpu.totalWeight < 0.000000001 {
        return None;
      }
      var state := states[key];
      assert Entry(state, model[key]);
      var cpu := state.cpu.Percentile(cpuPercentile);
      var mem := state.mem.Percentile(memPercentile);
      return Some(R.Recommendation(cpu, mem));
    }
  }
}
