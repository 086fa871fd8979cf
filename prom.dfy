/**
 * Writers for the Prometheus text exposition format: the `# HELP` and
 * `# TYPE` lines of a metric, one labeled sample per scope, label lists
 * joined with commas, and blocks of metrics written one after another.
 *
 * A formatter is an output buffer that accepts a string only while the
 * text written so far plus that string fits in its capacity; a refused
 * string is not written and the writer stops at once, as `?` does.
 */
module Prom {
  import opened Wrappers

  /** 2 to the power `n`. */
  function Pow2(n: nat): (r: nat)
    ensures r >= 1
  {
    if n == 0 then 1 else 2 * Pow2(n - 1)
  }

  /** The largest integer below which every `u64` is exactly representable as an `f64`. */
  const MAX_PRECISE_VALUE: nat := 0x20_0000_0000_0000

  lemma {:induction false} Pow2Add(a: nat, b: nat)
    ensures Pow2(a + b) == Pow2(a) * Pow2(b)
    decreases a
  {
    if a > 0 {
      Pow2Add(a - 1, b);
    }
  }

  /** `MAX_PRECISE_VALUE` is 2^53, a value a `u64` holds. */
  lemma MaxPreciseValueIsPow53()
    ensures MAX_PRECISE_VALUE == Pow2(53)
    ensures MAX_PRECISE_VALUE < Pow2(64)
  {
    assert Pow2(4) == 16;
    assert Pow2(8) == 0x100 by { Pow2Add(4, 4); }
    assert Pow2(16) == 0x1_0000 by { Pow2Add(8, 8); }
    assert Pow2(32) == 0x1_0000_0000 by { Pow2Add(16, 16); }
    assert Pow2(48) == 0x1_0000_0000_0000 by { Pow2Add(32, 16); }
    assert Pow2(53) == 0x20_0000_0000_0000 by { Pow2Add(48, 5); }
    assert Pow2(64) == 0x1_0000_0000_0000_0000 by { Pow2Add(32, 32); }
  }

  // ----- writes and what they leave in the buffer -----

  /** The text of a series of writes, one after another. */
  function Concat(writes: seq<string>): string {
    if writes == [] then "" else writes[0] + Concat(writes[1..])
  }

  lemma {:induction false} ConcatAppend(a: seq<string>, b: seq<string>)
    ensures Concat(a + b) == Concat(a) + Concat(b)
  {
    if a == [] {
      assert a + b == b;
    } else {
      assert (a + b)[0] == a[0];
      assert (a + b)[1..] == a[1..] + b;
      ConcatAppend(a[1..], b);
      assert Concat(a + b) == a[0] + (Concat(a[1..]) + Concat(b));
    }
  }

  /**
   * Issuing `writes` in order on a buffer holding `out`, stopping at the
   * first refused write: the resulting buffer, and whether every write
   * succeeded. All succeed exactly when the whole text fits; then the
   * buffer gains the whole text, and otherwise a part of it.
   */
  function Run(writes: seq<string>, out: string, capacity: nat): (r: (string, bool))
    ensures |out| <= capacity ==> (r.1 <==> |out| + |Concat(writes)| <= capacity)
    ensures |out| <= capacity ==> |r.0| <= capacity
    ensures r.1 ==> r.0 == out + Concat(writes)
    ensures !r.1 ==> out <= r.0 && r.0 <= out + Concat(writes)
  {
    if writes == [] then (out, true)
    else if |out| + |writes[0]| <= capacity then
      var rest := Run(writes[1..], out + writes[0], capacity);
      assert out + writes[0] + Concat(writes[1..]) == out + Concat(writes);
      rest
    else (out, false)
  }

  /** Writing `a` then `b` is writing `a`, then `b` only if all of `a` was written. */
  lemma {:induction false} RunAppend(a: seq<string>, b: seq<string>, out: string, capacity: nat)
    ensures Run(a + b, out, capacity) ==
      (var first := Run(a, out, capacity); if first.1 then Run(b, first.0, capacity) else first)
  {
    if a == [] {
      assert a + b == b;
    } else {
      assert (a + b)[0] == a[0];
      assert (a + b)[1..] == a[1..] + b;
      if |out| + |a[0]| <= capacity {
        RunAppend(a[1..], b, out + a[0], capacity);
      }
    }
  }

  /** `fmt::Formatter`: the text written so far and the room the destination has. */
  class Formatter {
    var out: string
    const capacity: nat

    constructor (capacity: nat)
      ensures out == "" && this.capacity == capacity
    {
      out := "";
      this.capacity := capacity;
    }

    /** `write_str`: accepted exactly when it fits, and then appended. */
    method WriteStr(s: string) returns (ok: bool)
      modifies this
      ensures ok <==> |old(out)| + |s| <= capacity
      ensures out == if ok then old(out) + s else old(out)
    {
      ok := |out| + |s| <= capacity;
      if ok {
        out := out + s;
      }
    }
  }

  /** Issues `writes` on `f` in order, stopping at the first refused one. */
  method WriteAll(f: Formatter, writes: seq<string>) returns (ok: bool)
    modifies f
    ensures (f.out, ok) == Run(writes, old(f.out), f.capacity)
  {
    var i := 0;
    while i < |writes|
      invariant 0 <= i <= |writes|
      invariant Run(writes, old(f.out), f.capacity) == Run(writes[i..], f.out, f.capacity)
    {
      assert writes[i..][1..] == writes[i + 1..];
      ok := f.WriteStr(writes[i]);
      if !ok {
        return;
      }
      i := i + 1;
    }
    return true;
  }

  // ----- labels -----

  /**
   * A `FmtLabels` value: labels written by their own implementation, a pair,
   * a pair whose second or first part is optional, or a reference.
   */
  datatype Labels =
    | Leaf(writes: seq<string>)
    | Pair(first: Labels, second: Labels)
    | WithOptSecond(first: Labels, optSecond: Option<Labels>)
    | WithOptFirst(optFirst: Option<Labels>, second: Labels)
    | LabelsRef(target: Labels)

  /** The writes `fmt_labels` issues when none is refused. */
  function LabelWrites(l: Labels): seq<string> {
    match l
    case Leaf(writes) => writes
    case Pair(a, b) => LabelWrites(a) + [","] + LabelWrites(b)
    case WithOptSecond(a, None) => LabelWrites(a)
    case WithOptSecond(a, Some(b)) => LabelWrites(a) + [","] + LabelWrites(b)
    case WithOptFirst(None, b) => LabelWrites(b)
    case WithOptFirst(Some(a), b) => LabelWrites(a) + [","] + LabelWrites(b)
    case LabelsRef(target) => LabelWrites(target)
  }

  /** The text of a label list. */
  function LabelText(l: Labels): string {
    Concat(LabelWrites(l))
  }

  /** `fmt_labels`. */
  method FmtLabels(l: Labels, f: Formatter) returns (ok: bool)
    modifies f
    ensures (f.out, ok) == Run(LabelWrites(l), old(f.out), f.capacity)
    ensures ok ==> f.out == old(f.out) + LabelText(l)
    decreases l
  {
    match l
    case Leaf(writes) =>
      ok := WriteAll(f, writes);
    case Pair(a, b) =>
      // `(A, B)`: a's labels, a comma, b's labels.
      JoinedRun(a, b, f.out, f.capacity);
      ok := FmtLabels(a, f);
      if !ok {
        return;
      }
      ok := f.WriteStr(",");
      if !ok {
        return;
      }
      ok := FmtLabels(b, f);
    case WithOptSecond(a, optB) =>
      // `(A, Option<B>)`: the comma and b's labels only when b is present.
      if optB.Some? {
        JoinedRun(a, optB.value, f.out, f.capacity);
      }
      ok := FmtLabels(a, f);
      if !ok {
        return;
      }
      if optB.Some? {
        ok := f.WriteStr(",");
        if !ok {
          return;
        }
        ok := FmtLabels(optB.value, f);
      }
    case WithOptFirst(optA, b) =>
      // `(Option<A>, B)`: a's labels and the comma only when a is present.
      if optA.Some? {
        JoinedRun(optA.value, b, f.out, f.capacity);
        ok := FmtLabels(optA.value, f);
        if !ok {
          return;
        }
        ok := f.WriteStr(",");
        if !ok {
          return;
        }
      }
      ok := FmtLabels(b, f);
    case LabelsRef(target) =>
      ok := FmtLabels(target, f);
  }

  /** Writing `a`, a comma and `b` stops after the first of the three that is refused. */
  lemma JoinedRun(a: Labels, b: Labels, out: string, capacity: nat)
    ensures Run(LabelWrites(a) + [","] + LabelWrites(b), out, capacity) ==
      (var first := Run(LabelWrites(a), out, capacity);
       if !first.1 then first
       else
         var comma := Run([","], first.0, capacity);
         if !comma.1 then comma else Run(LabelWrites(b), comma.0, capacity))
  {
    assert LabelWrites(a) + [","] + LabelWrites(b) == LabelWrites(a) + ([","] + LabelWrites(b));
    RunAppend(LabelWrites(a), [","] + LabelWrites(b), out, capacity);
    RunAppend([","], LabelWrites(b), Run(LabelWrites(a), out, capacity).0, capacity);
  }

  /** The labels of a pair are the first part's, a comma, and the second part's. */
  lemma PairLabels(a: Labels, b: Labels)
    ensures LabelText(Pair(a, b)) == LabelText(a) + "," + LabelText(b)
  {
    ConcatAppend(LabelWrites(a) + [","], LabelWrites(b));
    ConcatAppend(LabelWrites(a), [","]);
  }

  /** An absent optional part writes neither labels nor a comma; a present one writes what the pair does. */
  lemma OptionalLabels(a: Labels, b: Labels)
    ensures LabelWrites(WithOptSecond(a, None)) == LabelWrites(a)
    ensures LabelWrites(WithOptFirst(None, b)) == LabelWrites(b)
    ensures LabelWrites(WithOptSecond(a, Some(b))) == LabelWrites(Pair(a, b))
    ensures LabelWrites(WithOptFirst(Some(a), b)) == LabelWrites(Pair(a, b))
  {
  }

  /** If the first part of a pair is refused, neither the comma nor the second part is written. */
  lemma PairShortCircuit(a: Labels, b: Labels, out: string, capacity: nat)
    requires !Run(LabelWrites(a), out, capacity).1
    ensures Run(LabelWrites(Pair(a, b)), out, capacity) == Run(LabelWrites(a), out, capacity)
  {
    RunAppend(LabelWrites(a), [","] + LabelWrites(b), out, capacity);
    assert LabelWrites(Pair(a, b)) == LabelWrites(a) + ([","] + LabelWrites(b));
  }

  /** A reference writes what its referent writes. */
  lemma LabelsRefTransparent(l: Labels)
    ensures LabelWrites(LabelsRef(l)) == LabelWrites(l)
  {
  }

  // ----- blocks of metrics -----

  /** A `FmtMetrics` value: a block written by its own implementation, `AndThen`, `()`, or a reference. */
  datatype Metrics =
    | Block(writes: seq<string>)
    | AndThen(first: Metrics, next: Metrics)
    | NoMetrics
    | MetricsRef(target: Metrics)

  /** The writes `fmt_metrics` issues when none is refused. */
  function MetricsWrites(m: Metrics): seq<string> {
    match m
    case Block(writes) => writes
    case AndThen(a, b) => MetricsWrites(a) + MetricsWrites(b)
    case NoMetrics => []
    case MetricsRef(target) => MetricsWrites(target)
  }

  /** `fmt_metrics`. */
  method FmtMetrics(m: Metrics, f: Formatter) returns (ok: bool)
    modifies f
    ensures (f.out, ok) == Run(MetricsWrites(m), old(f.out), f.capacity)
    ensures ok ==> f.out == old(f.out) + Concat(MetricsWrites(m))
    decreases m
  {
    match m
    case Block(writes) =>
      ok := WriteAll(f, writes);
    case AndThen(a, b) =>
      RunAppend(MetricsWrites(a), MetricsWrites(b), f.out, f.capacity);
      ok := FmtMetrics(a, f);
      if !ok {
        return;
      }
      ok := FmtMetrics(b, f);
    case NoMetrics =>
      ok := true;
    case MetricsRef(target) =>
      ok := FmtMetrics(target, f);
  }

  /** `AndThen` writes the first block's text followed by the second's. */
  lemma AndThenText(a: Metrics, b: Metrics)
    ensures Concat(MetricsWrites(AndThen(a, b))) == Concat(MetricsWrites(a)) + Concat(MetricsWrites(b))
  {
    ConcatAppend(MetricsWrites(a), MetricsWrites(b));
  }

  /** If the first block of an `AndThen` is refused, nothing of the second is written. */
  lemma AndThenShortCircuit(a: Metrics, b: Metrics, out: string, capacity: nat)
    requires !Run(MetricsWrites(a), out, capacity).1
    ensures Run(MetricsWrites(AndThen(a, b)), out, capacity) == Run(MetricsWrites(a), out, capacity)
  {
    RunAppend(MetricsWrites(a), MetricsWrites(b), out, capacity);
  }

  /** `()` writes nothing, so it is a left and right identity of `AndThen`, which is associative. */
  lemma AndThenMonoid(a: Metrics, b: Metrics, c: Metrics)
    ensures MetricsWrites(NoMetrics) == []
    ensures MetricsWrites(AndThen(NoMetrics, a)) == MetricsWrites(a)
    ensures MetricsWrites(AndThen(a, NoMetrics)) == MetricsWrites(a)
    ensures MetricsWrites(AndThen(AndThen(a, b), c)) == MetricsWrites(AndThen(a, AndThen(b, c)))
  {
    assert [] + MetricsWrites(a) == MetricsWrites(a);
    assert MetricsWrites(a) + [] == MetricsWrites(a);
  }

  /** A reference writes what its referent writes. */
  lemma MetricsRefTransparent(m: Metrics)
    ensures MetricsWrites(MetricsRef(m)) == MetricsWrites(m)
  {
  }

  // ----- one metric -----

  /** A metric's name and help text, and its kind (`FmtMetric::KIND`). */
  datatype Metric = Metric(name: string, help: string, kind: string)

  /** The writes of one `writeln!(f, "<prefix>{} {}", a, b)`. */
  function LineWrites(prefix: string, a: string, b: string): seq<string> {
    [prefix, a, " ", b, "\n"]
  }

  /** The writes of `fmt_help`. */
  function HelpWrites(m: Metric): seq<string> {
    LineWrites("# HELP ", m.name, m.help) + LineWrites("# TYPE ", m.name, m.kind)
  }

  lemma ConcatSingle(x: string)
    ensures Concat([x]) == x
  {
    assert [x][1..] == [];
  }

  lemma LineText(prefix: string, a: string, b: string)
    ensures Concat(LineWrites(prefix, a, b)) == prefix + a + " " + b + "\n"
  {
    assert LineWrites(prefix, a, b) == [prefix] + [a] + [" "] + [b] + ["\n"];
    ConcatAppend([prefix] + [a] + [" "] + [b], ["\n"]);
    ConcatAppend([prefix] + [a] + [" "], [b]);
    ConcatAppend([prefix] + [a], [" "]);
    ConcatAppend([prefix], [a]);
    ConcatSingle(prefix);
    ConcatSingle(a);
    ConcatSingle(" ");
    ConcatSingle(b);
    ConcatSingle("\n");
  }

  /** `fmt_help` writes exactly the `# HELP` line and then the `# TYPE` line. */
  lemma HelpText(m: Metric)
    ensures Concat(HelpWrites(m)) ==
      "# HELP " + m.name + " " + m.help + "\n# TYPE " + m.name + " " + m.kind + "\n"
  {
    assert "\n# TYPE " == "\n" + "# TYPE ";
    ConcatAppend(LineWrites("# HELP ", m.name, m.help), LineWrites("# TYPE ", m.name, m.kind));
    LineText("# HELP ", m.name, m.help);
    LineText("# TYPE ", m.name, m.kind);
  }

  /** `fmt_help`: the two lines, the second only if the first was written in full. */
  method FmtHelp(m: Metric, f: Formatter) returns (ok: bool)
    modifies f
    ensures (f.out, ok) == Run(HelpWrites(m), old(f.out), f.capacity)
    ensures ok ==> f.out == old(f.out) + ("# HELP " + m.name + " " + m.help + "\n# TYPE " + m.name + " " + m.kind + "\n")
  {
    RunAppend(LineWrites("# HELP ", m.name, m.help), LineWrites("# TYPE ", m.name, m.kind), f.out, f.capacity);
    ok := WriteAll(f, LineWrites("# HELP ", m.name, m.help));
    if !ok {
      return;
    }
    ok := WriteAll(f, LineWrites("# TYPE ", m.name, m.kind));
    if ok {
      HelpText(m);
    }
  }

  /**
   * The writes of `fmt_scopes`: for each scope in order, the labeled sample
   * its metric writes (`fmt_metric_labeled`, given as `labeled`).
   */
  function ScopeWrites<S>(name: string, scopes: seq<(Labels, S)>, labeled: (string, Labels, S) -> seq<string>)
    : seq<string>
  {
    if scopes == [] then []
    else labeled(name, scopes[0].0, scopes[0].1) + ScopeWrites(name, scopes[1..], labeled)
  }

  /** `fmt_scopes`: one labeled sample per scope, stopping at the first refused write. */
  method FmtScopes<S>(m: Metric, f: Formatter, scopes: seq<(Labels, S)>, labeled: (string, Labels, S) -> seq<string>)
    returns (ok: bool)
    modifies f
    ensures (f.out, ok) == Run(ScopeWrites(m.name, scopes, labeled), old(f.out), f.capacity)
  {
    var i := 0;
    while i < |scopes|
      invariant 0 <= i <= |scopes|
      invariant Run(ScopeWrites(m.name, scopes, labeled), old(f.out), f.capacity) ==
        Run(ScopeWrites(m.name, scopes[i..], labeled), f.out, f.capacity)
    {
      var sample := labeled(m.name, scopes[i].0, scopes[i].1);
      assert scopes[i..][1..] == scopes[i + 1..];
      RunAppend(sample, ScopeWrites(m.name, scopes[i + 1..], labeled), f.out, f.capacity);
      ok := WriteAll(f, sample);
      if !ok {
        return;
      }
      i := i + 1;
    }
    return true;
  }

  lemma {:induction false} ScopeWritesSplit<S>(
    name: string, scopes: seq<(Labels, S)>, labeled: (string, Labels, S) -> seq<string>, j: nat)
    requires j <= |scopes|
    ensures ScopeWrites(name, scopes, labeled) ==
      ScopeWrites(name, scopes[..j], labeled) + ScopeWrites(name, scopes[j..], labeled)
  {
    if j > 0 {
      ScopeWritesSplit(name, scopes[1..], labeled, j - 1);
      assert scopes[..j][1..] == scopes[1..][..j - 1];
      assert scopes[1..][j - 1..] == scopes[j..];
    } else {
      assert scopes[j..] == scopes;
    }
  }

  /**
   * If the scopes before `j` are written in full and scope `j`'s sample is
   * refused, `fmt_scopes` ends there: the buffer holds the earlier samples
   * and part of scope `j`'s, and nothing of the later scopes.
   */
  lemma ScopesStopAtFirstError<S>(
    name: string, scopes: seq<(Labels, S)>, labeled: (string, Labels, S) -> seq<string>,
    out: string, capacity: nat, j: nat)
    requires j < |scopes|
    requires Run(ScopeWrites(name, scopes[..j], labeled), out, capacity).1
    requires !Run(labeled(name, scopes[j].0, scopes[j].1),
                  out + Concat(ScopeWrites(name, scopes[..j], labeled)), capacity).1
    ensures Run(ScopeWrites(name, scopes, labeled), out, capacity) ==
      Run(labeled(name, scopes[j].0, scopes[j].1), out + Concat(ScopeWrites(name, scopes[..j], labeled)), capacity)
  {
    ScopeWritesSplit(name, scopes, labeled, j);
    var before, sample := ScopeWrites(name, scopes[..j], labeled), labeled(name, scopes[j].0, scopes[j].1);
    assert ScopeWrites(name, scopes[j..], labeled) == sample + ScopeWrites(name, scopes[j + 1..], labeled) by {
      assert scopes[j..][1..] == scopes[j + 1..];
    }
    RunAppend(before, ScopeWrites(name, scopes[j..], labeled), out, capacity);
    RunAppend(sample, ScopeWrites(name, scopes[j + 1..], labeled), out + Concat(before), capacity);
  }

  /** When every write fits, `fmt_scopes` writes the samples of all scopes, in order. */
  lemma ScopesInOrder<S>(
    name: string, scopes: seq<(Labels, S)>, labeled: (string, Labels, S) -> seq<string>, out: string, capacity: nat)
    requires Run(ScopeWrites(name, scopes, labeled), out, capacity).1
    ensures Run(ScopeWrites(name, scopes, labeled), out, capacity).0 ==
      out + Concat(ScopeWrites(name, scopes, labeled))
    ensures scopes != [] ==>
      Run(ScopeWrites(name, scopes, labeled), out, capacity).0 ==
        out + Concat(labeled(name, scopes[0].0, scopes[0].1)) + Concat(ScopeWrites(name, scopes[1..], labeled))
  {
    if scopes != [] {
      ConcatAppend(labeled(name, scopes[0].0, scopes[0].1), ScopeWrites(name, scopes[1..], labeled));
    }
  }
}
