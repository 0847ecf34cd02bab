/**
 * The loops of the extractor all walk a list of items and, per item, add a
 * credential to the list, pass over the item (`continue`), or leave the
 * whole extraction through its `except` clause. What one pass leaves behind
 * is the entries added before it stopped, and whether it stopped early.
 */
module Steps {
  import opened Records

  /** What the loop body does with one item. */
  datatype Step = Append(entry: Credential) | Skip | Abort

  /** The entries a pass adds and whether it reached an `Abort`; items after the first `Abort` are never looked at. */
  function Accumulate(steps: seq<Step>): (r: (seq<Credential>, bool))
    ensures |r.0| <= |steps|
  {
    if steps == [] then ([], false)
    else
      var prev := Accumulate(steps[..|steps| - 1]);
      if prev.1 then prev
      else match steps[|steps| - 1]
        case Append(c) => (prev.0 + [c], false)
        case Skip => prev
        case Abort => (prev.0, true)
  }

  /** The credentials of the `Append` steps, in order: the reference a pass is measured against. */
  function Appended(steps: seq<Step>): seq<Credential> {
    if steps == [] then [] else Contribution(steps[0]) + Appended(steps[1..])
  }

  predicate NoAbort(steps: seq<Step>) {
    forall k :: 0 <= k < |steps| ==> !steps[k].Abort?
  }

  /** `Appended` taken over a sequence extended by one step. */
  lemma {:induction false} AppendedSnoc(steps: seq<Step>, s: Step)
    ensures Appended(steps + [s]) == Appended(steps) + Contribution(s)
  {
    if steps == [] {
      assert [] + [s] == [s];
    } else {
      assert (steps + [s])[1..] == steps[1..] + [s];
      AppendedSnoc(steps[1..], s);
      Extend(Contribution(steps[0]), Appended(steps[1..]), Contribution(s));
    }
  }

  /** `Appended` of a concatenation is the concatenation of the two. */
  lemma {:induction false} AppendedConcat(a: seq<Step>, b: seq<Step>)
    ensures Appended(a + b) == Appended(a) + Appended(b)
  {
    if a == [] {
      assert a + b == b;
    } else {
      assert (a + b)[1..] == a[1..] + b;
      AppendedConcat(a[1..], b);
      Extend(Contribution(a[0]), Appended(a[1..]), Appended(b));
    }
  }

  /** A pass without `Abort` visits every item and adds exactly the `Append` entries, in order. */
  lemma {:induction false} AccumulateNoAbort(steps: seq<Step>)
    requires NoAbort(steps)
    ensures Accumulate(steps) == (Appended(steps), false)
  {
    if steps != [] {
      var init := steps[..|steps| - 1];
      assert NoAbort(init) by {
        forall k | 0 <= k < |init| ensures !init[k].Abort? { assert init[k] == steps[k]; }
      }
      AccumulateNoAbort(init);
      var last := steps[|steps| - 1];
      assert !last.Abort?;
      AppendedSnoc(init, last);
      assert init + [last] == steps;
      if !last.Append? {
        assert Appended(init) + [] == Appended(init);
      }
    }
  }

  /**
   * A pass that meets its first `Abort` at `k` adds the entries of the
   * steps before `k`, and reports that it stopped.
   */
  lemma {:induction false} AccumulateStopsAt(steps: seq<Step>, k: nat)
    requires k < |steps| && steps[k].Abort? && NoAbort(steps[..k])
    ensures Accumulate(steps) == (Appended(steps[..k]), true)
    decreases |steps|
  {
    var init := steps[..|steps| - 1];
    if k == |steps| - 1 {
      assert init == steps[..k];
      AccumulateNoAbort(init);
    } else {
      assert init[k] == steps[k];
      assert init[..k] == steps[..k];
      AccumulateStopsAt(init, k);
    }
  }

  /** Every entry `Appended` yields comes from an `Append` step, and every such step's entry is there. */
  lemma {:induction false} AppendedMembers(steps: seq<Step>, c: Credential)
    ensures c in Appended(steps) <==> exists k :: 0 <= k < |steps| && steps[k] == Append(c)
  {
    if steps != [] {
      AppendedMembers(steps[1..], c);
      if exists k :: 0 <= k < |steps[1..]| && steps[1..][k] == Append(c) {
        var k :| 0 <= k < |steps[1..]| && steps[1..][k] == Append(c);
        assert steps[k + 1] == Append(c);
      }
      if exists k :: 0 <= k < |steps| && steps[k] == Append(c) {
        var k :| 0 <= k < |steps| && steps[k] == Append(c);
        if k > 0 {
          assert steps[1..][k - 1] == Append(c);
        }
      }
    }
  }

  /** Where a pass stops: the index of the first `Abort`, or the number of steps when there is none. */
  function FirstAbort(steps: seq<Step>): (k: nat)
    ensures k <= |steps| && NoAbort(steps[..k])
    ensures k < |steps| ==> steps[k].Abort?
  {
    if steps == [] then 0
    else if steps[0].Abort? then 0
    else
      var k := 1 + FirstAbort(steps[1..]);
      assert forall j :: 1 <= j < k ==> steps[..k][j] == steps[1..][..k - 1][j - 1];
      k
  }

  /**
   * What a pass leaves behind: the entries of the steps before the first
   * `Abort`, in order, and whether there was one.
   */
  lemma AccumulateFirstAbort(steps: seq<Step>)
    ensures Accumulate(steps) == (Appended(steps[..FirstAbort(steps)]), FirstAbort(steps) < |steps|)
  {
    var k := FirstAbort(steps);
    if k < |steps| {
      AccumulateStopsAt(steps, k);
    } else {
      assert steps[..k] == steps;
      AccumulateNoAbort(steps);
    }
  }

  /** Once a pass has stopped, later items change nothing. */
  lemma {:induction false} AbortIsFinal(steps: seq<Step>, j: nat)
    requires j <= |steps| && Accumulate(steps[..j]).1
    ensures Accumulate(steps) == Accumulate(steps[..j])
    decreases |steps| - j
  {
    if j == |steps| {
      assert steps[..j] == steps;
    } else {
      var init := steps[..|steps| - 1];
      assert init[..j] == steps[..j];
      AbortIsFinal(init, j);
    }
  }

  /** A pass without `Abort` stops nowhere. */
  lemma FirstAbortAll(steps: seq<Step>)
    requires NoAbort(steps)
    ensures FirstAbort(steps) == |steps| && steps[..FirstAbort(steps)] == steps
  {
  }

  /** The first `Abort` comes no later than any `Abort`. */
  lemma {:induction false} FirstAbortAtMost(steps: seq<Step>, k: nat)
    requires k < |steps| && steps[k].Abort?
    ensures FirstAbort(steps) <= k
  {
    if !steps[0].Abort? {
      assert steps[1..][k - 1] == steps[k];
      FirstAbortAtMost(steps[1..], k - 1);
    }
  }

  /** A pass with an `Abort` anywhere stops. */
  lemma AbortStops(steps: seq<Step>, k: nat)
    requires k < |steps| && steps[k].Abort?
    ensures Accumulate(steps).1
  {
    AccumulateFirstAbort(steps);
    FirstAbortAtMost(steps, k);
  }

  /** Every entry a pass collects is the entry of one of its `Append` steps: the `k`-th. */
  lemma {:induction false} AccumulateEntry(steps: seq<Step>, c: Credential) returns (k: nat)
    requires c in Accumulate(steps).0
    ensures k < |steps| && steps[k] == Append(c)
  {
    var init := steps[..|steps| - 1];
    if c in Accumulate(init).0 {
      k := AccumulateEntry(init, c);
      assert steps[k] == init[k];
    } else {
      k := |steps| - 1;
    }
  }

  /** An `Abort` with none before it is the first one. */
  lemma FirstAbortAt(steps: seq<Step>, k: nat)
    requires k < |steps| && steps[k].Abort? && NoAbort(steps[..k])
    ensures FirstAbort(steps) == k
  {
  }

  /** What one step adds. */
  function Contribution(s: Step): (added: seq<Credential>)
    ensures |added| <= 1
  {
    if s.Append? then [s.entry] else []
  }

  /** The lists one after the other. */
  function Flatten(parts: seq<seq<Credential>>): seq<Credential> {
    if parts == [] then [] else parts[0] + Flatten(parts[1..])
  }

  /** Steps that each add what a reference list says add the lists one after the other. */
  lemma {:induction false} AppendedFlatten(steps: seq<Step>, parts: seq<seq<Credential>>)
    requires |parts| == |steps|
    requires forall k :: 0 <= k < |steps| ==> Contribution(steps[k]) == parts[k]
    ensures Appended(steps) == Flatten(parts)
  {
    if steps != [] {
      forall k | 0 <= k < |steps| - 1
        ensures Contribution(steps[1..][k]) == parts[1..][k]
      {
        assert steps[1..][k] == steps[k + 1];
      }
      AppendedFlatten(steps[1..], parts[1..]);
      assert Contribution(steps[0]) == parts[0];
    }
  }

  /** An entry is in the lists one after the other exactly when it is in one of them. */
  lemma {:induction false} FlattenMembers(parts: seq<seq<Credential>>, c: Credential)
    ensures c in Flatten(parts) <==> exists k :: 0 <= k < |parts| && c in parts[k]
  {
    if parts != [] {
      FlattenMembers(parts[1..], c);
      if exists k :: 0 <= k < |parts[1..]| && c in parts[1..][k] {
        var k :| 0 <= k < |parts[1..]| && c in parts[1..][k];
        assert c in parts[k + 1];
      }
      if exists k :: 0 <= k < |parts| && c in parts[k] {
        var k :| 0 <= k < |parts| && c in parts[k];
        if k > 0 {
          assert c in parts[1..][k - 1];
        }
      }
    }
  }

  /** No two entries name the same network. */
  predicate DistinctNames(cs: seq<Credential>) {
    forall i, j :: 0 <= i < j < |cs| ==> cs[i].ssid != cs[j].ssid
  }

  /** Each list holds at most one entry, and that entry is for the network of the same position. */
  predicate KeyedBy(parts: seq<seq<Credential>>, keys: seq<string>) {
    |parts| == |keys|
    && forall k :: 0 <= k < |parts| ==> |parts[k]| <= 1 && (parts[k] != [] ==> parts[k][0].ssid == keys[k])
  }

  /** Lists keyed by distinct networks flatten to entries for distinct networks. */
  lemma {:induction false} FlattenDistinct(parts: seq<seq<Credential>>, keys: seq<string>)
    requires KeyedBy(parts, keys)
    requires forall i, j :: 0 <= i < j < |keys| ==> keys[i] != keys[j]
    ensures DistinctNames(Flatten(parts))
  {
    if parts != [] {
      assert KeyedBy(parts[1..], keys[1..]) by {
        forall k | 0 <= k < |parts| - 1
          ensures |parts[1..][k]| <= 1 && (parts[1..][k] != [] ==> parts[1..][k][0].ssid == keys[1..][k])
        {
          assert parts[1..][k] == parts[k + 1];
        }
      }
      FlattenDistinct(parts[1..], keys[1..]);
      var rest := Flatten(parts[1..]);
      if parts[0] != [] {
        var head := parts[0][0];
        assert parts[0] == [head];
        forall j | 0 <= j < |rest|
          ensures rest[j].ssid != head.ssid
        {
          FlattenMembers(parts[1..], rest[j]);
          var k :| 0 <= k < |parts[1..]| && rest[j] in parts[1..][k];
          assert parts[1..][k] == parts[k + 1];
        }
        assert Flatten(parts) == [head] + rest;
      } else {
        assert Flatten(parts) == rest;
      }
    }
  }

  /**
   * A list that has been added to, seen from the list it started as. Dafny
   * knows this; the lemma only names the regrouping for proofs that would
   * otherwise search for it, and models nothing.
   */
  lemma Extend(start: seq<Credential>, acc: seq<Credential>, added: seq<Credential>)
    ensures start + (acc + added) == start + acc + added
    ensures added == [] ==> start + (acc + added) == start + acc
  {
  }

  /** One more item of a pass that has not stopped: its contribution is added, and the pass stops on an `Abort`. */
  lemma AccumulateNext(steps: seq<Step>, i: nat)
    requires i < |steps| && !Accumulate(steps[..i]).1
    ensures Accumulate(steps[..i + 1]) == (Accumulate(steps[..i]).0 + Contribution(steps[i]), steps[i].Abort?)
  {
    assert steps[..i + 1][..i] == steps[..i];
    if !steps[i].Append? {
      assert Accumulate(steps[..i]).0 + [] == Accumulate(steps[..i]).0;
    }
  }

  /** A pass that reaches an `Abort` at `i` ends with what it had before `i`. */
  lemma AccumulateAbortAt(steps: seq<Step>, i: nat)
    requires i < |steps| && !Accumulate(steps[..i]).1 && steps[i].Abort?
    ensures Accumulate(steps) == (Accumulate(steps[..i]).0, true)
  {
    AccumulateNext(steps, i);
    assert Accumulate(steps[..i]).0 + [] == Accumulate(steps[..i]).0;
    AbortIsFinal(steps, i + 1);
  }

  /** One more step after a pass that has not stopped. */
  lemma AccumulateSnoc(steps: seq<Step>, s: Step)
    requires !Accumulate(steps).1
    ensures Accumulate(steps + [s]) == (Accumulate(steps).0 + Contribution(s), s.Abort?)
  {
    assert (steps + [s])[..|steps|] == steps;
    if !s.Append? {
      assert Accumulate(steps).0 + [] == Accumulate(steps).0;
    }
  }
}
