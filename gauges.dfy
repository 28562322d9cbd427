/** The gauge of the metrics client library, as the exporter relies on it.
    The library itself is not part of this model: the `Gauge` class below
    states the behaviour the exporter assumes of it, namely that `set`
    overwrites the reading of one label combination and leaves every other
    combination alone, and that a reading must be a number.

    A gauge's state is a table from label tuples (the label values in the
    order of the gauge's declared label names) to integer readings. The
    readings a collection pass produces are also described as a list of
    observations, and `Apply` folds such a list into a table; the lemmas
    below say what the table holds afterwards. */
module Gauges {
  import opened Strings

  /** One cell of a result row: database names arrive as text, counts and times as integers. */
  datatype Cell = Str(s: string) | Num(n: int)

  /** A result row, indexed by column position. */
  type Row = seq<Cell>

  /** A metric's declaration: its exported name, help text and ordered label names. */
  datatype Descriptor = Descriptor(name: string, help: string, labelNames: seq<string>)

  /** The text a cell becomes when it is used as a label value. */
  function LabelText(c: Cell): (r: string)
    ensures c.Str? ==> r == c.s
    ensures c.Num? ==> r == Decimal(c.n)
  {
    match c
    case Str(s) => s
    case Num(n) => Decimal(n)
  }

  /** Two cells give the same label value exactly when they are equal, or when one is text
      spelling the other's integer in decimal: distinct integers never share a label value. */
  lemma LabelTextSame(a: Cell, b: Cell)
    ensures LabelText(a) == LabelText(b)
        <==> (a == b || (a.Str? && b.Num? && a.s == Decimal(b.n)) || (a.Num? && b.Str? && b.s == Decimal(a.n)))
  {
    if a.Num? && b.Num? {
      DecimalInjective(a.n, b.n);
    }
  }

  /** The label object supplies exactly the declared label names, no more and no fewer. */
  ghost predicate LabelsMatch(names: seq<string>, labels: map<string, Cell>)
  {
    forall x :: x in labels <==> x in names
  }

  /** The label tuple of a label object: its values in the order of the declared names. */
  function LabelTuple(names: seq<string>, labels: map<string, Cell>): (t: seq<string>)
    requires LabelsMatch(names, labels)
    ensures |t| == |names|
    ensures forall i :: 0 <= i < |names| ==> t[i] == LabelText(labels[names[i]])
  {
    seq(|names|, i requires 0 <= i < |names| => LabelText(labels[names[i]]))
  }

  /** Two label objects over the same names give the same tuple, and so the same reading,
      exactly when their label values read the same name by name. */
  lemma LabelTupleSame(names: seq<string>, a: map<string, Cell>, b: map<string, Cell>)
    requires LabelsMatch(names, a) && LabelsMatch(names, b)
    ensures LabelTuple(names, a) == LabelTuple(names, b)
        <==> forall i :: 0 <= i < |names| ==> LabelText(a[names[i]]) == LabelText(b[names[i]])
  {
    if forall i :: 0 <= i < |names| ==> LabelText(a[names[i]]) == LabelText(b[names[i]]) {
      assert forall i :: 0 <= i < |names| ==> LabelTuple(names, a)[i] == LabelTuple(names, b)[i];
    }
  }

  type Table = map<seq<string>, int>

  /** One `set` that took effect: which metric, which label tuple, which reading. */
  datatype Observation = Observation(metric: string, labels: seq<string>, value: int)

  /** The label tuples of `metric` written by `obs`. */
  ghost function Written(metric: string, obs: seq<Observation>): set<seq<string>>
  {
    set i | 0 <= i < |obs| && obs[i].metric == metric :: obs[i].labels
  }

  /** The table of `metric` after the observations `obs`, in order, starting from `t`.
      Nothing is ever removed: the keys are the old ones plus the written ones. */
  function Apply(t: Table, metric: string, obs: seq<Observation>): (r: Table)
    ensures r.Keys == t.Keys + Written(metric, obs)
    decreases |obs|
  {
    if |obs| == 0 then t
    else
      var before := obs[..|obs| - 1];
      var o := obs[|obs| - 1];
      assert Written(metric, obs) == Written(metric, before) + (if o.metric == metric then {o.labels} else {}) by {
        assert forall i :: 0 <= i < |before| ==> before[i] == obs[i];
      }
      if o.metric == metric then Apply(t, metric, before)[o.labels := o.value]
      else Apply(t, metric, before)
  }

  /** Applying one more observation updates at most its own key. */
  lemma ApplySnoc(t: Table, metric: string, obs: seq<Observation>, o: Observation)
    ensures Apply(t, metric, obs + [o])
         == if o.metric == metric then Apply(t, metric, obs)[o.labels := o.value] else Apply(t, metric, obs)
  {
    assert (obs + [o])[..|obs|] == obs;
  }

  /** Applying two lists one after the other is applying their concatenation. */
  lemma {:induction false} ApplyAppend(t: Table, metric: string, a: seq<Observation>, b: seq<Observation>)
    ensures Apply(t, metric, a + b) == Apply(Apply(t, metric, a), metric, b)
    decreases |b|
  {
    if |b| == 0 {
      assert a + b == a;
    } else {
      var b' := b[..|b| - 1];
      var o := b[|b| - 1];
      assert a + b == (a + b') + [o];
      assert b == b' + [o];
      ApplyAppend(t, metric, a, b');
      ApplySnoc(t, metric, a + b', o);
      ApplySnoc(Apply(t, metric, a), metric, b', o);
    }
  }

  /** The table after `obs` is the old table overridden by the readings `obs` leaves on an empty one:
      readings never accumulate and never reset. */
  lemma {:induction false} ApplyOverride(t: Table, metric: string, obs: seq<Observation>)
    ensures Apply(t, metric, obs) == t + Apply(map[], metric, obs)
    decreases |obs|
  {
    if |obs| > 0 {
      var before := obs[..|obs| - 1];
      var o := obs[|obs| - 1];
      ApplyOverride(t, metric, before);
      if o.metric == metric {
        var f := Apply(map[], metric, before);
        assert (t + f)[o.labels := o.value] == t + f[o.labels := o.value];
      }
    }
  }

  /** Applying the same observations twice leaves the same table as applying them once. */
  lemma ApplyIdempotent(t: Table, metric: string, obs: seq<Observation>)
    ensures Apply(Apply(t, metric, obs), metric, obs) == Apply(t, metric, obs)
  {
    var f := Apply(map[], metric, obs);
    ApplyOverride(t, metric, obs);
    ApplyOverride(t + f, metric, obs);
    assert (t + f) + f == t + f;
  }

  /** A key that no observation of `metric` writes keeps its presence and its reading. */
  lemma {:induction false} ApplyUntouched(t: Table, metric: string, obs: seq<Observation>, key: seq<string>)
    requires forall i :: 0 <= i < |obs| && obs[i].metric == metric ==> obs[i].labels != key
    ensures key in Apply(t, metric, obs) <==> key in t
    ensures key in t ==> Apply(t, metric, obs)[key] == t[key]
    decreases |obs|
  {
    if |obs| > 0 {
      ApplyUntouched(t, metric, obs[..|obs| - 1], key);
    }
  }

  /** When every observation that writes `o`'s key writes `o`'s reading, that reading is what remains. */
  lemma {:induction false} ApplyWritten(t: Table, metric: string, obs: seq<Observation>, o: Observation)
    requires o in obs && o.metric == metric
    requires forall i :: 0 <= i < |obs| && obs[i].metric == metric && obs[i].labels == o.labels ==> obs[i].value == o.value
    ensures o.labels in Apply(t, metric, obs)
    ensures Apply(t, metric, obs)[o.labels] == o.value
    decreases |obs|
  {
    var before := obs[..|obs| - 1];
    var last := obs[|obs| - 1];
    if !(last.metric == metric && last.labels == o.labels) {
      assert o in before by {
        var k :| 0 <= k < |obs| && obs[k] == o;
        assert k < |obs| - 1;
        assert before[k] == o;
      }
      ApplyWritten(t, metric, before, o);
    }
  }

  /** A gauge of the metrics client: its declaration and its current readings. */
  class Gauge {
    const descriptor: Descriptor
    var values: Table

    /** A gauge with no readings yet. */
    constructor (d: Descriptor)
      ensures descriptor == d && values == map[]
    {
      descriptor := d;
      values := map[];
    }

    /** `set(labels, value)`: the labels must be exactly the declared ones. A reading that is
        not a number is refused (`ok` is false) and nothing changes; otherwise the reading of
        this one label tuple is overwritten and every other one is left alone. */
    method Set(labels: map<string, Cell>, value: Cell) returns (ok: bool)
      requires LabelsMatch(descriptor.labelNames, labels)
      modifies this
      ensures ok <==> value.Num?
      ensures ok ==> values == old(values)[LabelTuple(descriptor.labelNames, labels) := value.n]
      ensures !ok ==> values == old(values)
    {
      ok := value.Num?;
      if ok {
        values := values[LabelTuple(descriptor.labelNames, labels) := value.n];
      }
    }
  }
}
