/** The depth-first traversal shared by the JavaScript and the Python
    bundlers (`inlineDependencies` and `processFile`): a shared `processed`
    set and a `bundled` text that both grow as the walk proceeds. */
module DependencyWalk {
  import opened Seqs

  /** `p` follows import edges from its first to its last name. */
  ghost predicate IsPath(deps: map<string, seq<string>>, p: seq<string>) {
    forall k :: 0 <= k < |p| - 1 ==> p[k] in deps && p[k + 1] in deps[p[k]]
  }

  /** `b` is reachable from `a` through zero or more imports. */
  ghost predicate Reaches(deps: map<string, seq<string>>, a: string, b: string) {
    exists p :: IsPath(deps, p) && |p| > 0 && p[0] == a && p[|p| - 1] == b
  }

  /** The sections of `o`, concatenated in order. */
  function Emit(sections: map<string, string>, o: seq<string>): string
    requires forall x :: x in o ==> x in sections
  {
    if |o| == 0 then "" else Emit(sections, o[..|o| - 1]) + sections[o[|o| - 1]]
  }

  /** Every dependency of the `i`-th emitted name that is a file was
      emitted before it, or reaches it back through imports (a cycle). */
  ghost predicate Settled(deps: map<string, seq<string>>, sections: map<string, string>, o: seq<string>, i: nat)
    requires i < |o|
  {
    o[i] in deps &&
    forall d :: d in deps[o[i]] && d in sections ==> d in o[..i] || Reaches(deps, d, o[i])
  }

  lemma {:induction false} EmitAppend(sections: map<string, string>, o: seq<string>, f: string)
    requires forall x :: x in o ==> x in sections
    requires f in sections
    ensures Emit(sections, o + [f]) == Emit(sections, o) + sections[f]
  {
    assert (o + [f])[..|o|] == o;
  }

  /** A suffix of a path is a path to its last name. */
  lemma {:induction false} PathSuffixReaches(deps: map<string, seq<string>>, p: seq<string>, j: nat)
    requires IsPath(deps, p) && j < |p|
    ensures Reaches(deps, p[j], p[|p| - 1])
  {
    var q := p[j..];
    assert forall k :: 0 <= k < |q| ==> q[k] == p[j + k];
    assert IsPath(deps, q) && q[0] == p[j] && q[|q| - 1] == p[|p| - 1];
  }

  lemma {:induction false} ReachesPrepend(deps: map<string, seq<string>>, f: string, d: string, x: string)
    requires f in deps && d in deps[f] && Reaches(deps, d, x)
    ensures Reaches(deps, f, x)
  {
    var p :| IsPath(deps, p) && |p| > 0 && p[0] == d && p[|p| - 1] == x;
    var q := [f] + p;
    assert forall k :: 1 <= k < |q| ==> q[k] == p[k - 1];
    assert IsPath(deps, q) && q[0] == f && q[|q| - 1] == x;
  }

  lemma ReachesSelf(deps: map<string, seq<string>>, f: string)
    ensures Reaches(deps, f, f)
  {
    assert IsPath(deps, [f]);
  }

  /** No file imports `e`. */
  ghost predicate Unimported(deps: map<string, seq<string>>, e: string) {
    forall f :: f in deps ==> e !in deps[f]
  }

  /** A name that no file imports is reached from no other name. */
  lemma {:induction false} UnimportedUnreached(deps: map<string, seq<string>>, a: string, e: string)
    requires Unimported(deps, e)
    requires a != e
    ensures !Reaches(deps, a, e)
  {
    forall p | IsPath(deps, p) && |p| > 0 && p[0] == a ensures p[|p| - 1] != e {
      if |p| > 1 {
        assert p[|p| - 2] in deps && p[|p| - 1] in deps[p[|p| - 2]];
      }
    }
  }

  /** One bundling pass. `deps[f]` lists the names `f` imports, in the
      order its import statements appear, and `sections[f]` the text the
      bundler emits for `f`; a name without a section is not a file of the
      project. Each section depends only on its own file and on data
      computed before the walk starts, so the walk can take it as given.
      `order` records the names whose sections were appended and `stack`
      the visits still in progress. */
  class Walk {
    const deps: map<string, seq<string>>
    const sections: map<string, string>
    /** Every name the walk can be asked to visit. */
    ghost const names: set<string>
    var processed: set<string>
    var bundled: string
    ghost var order: seq<string>
    ghost var stack: seq<string>

    /** Every dependency of a file is a name the walk knows. */
    ghost predicate Closed() {
      sections.Keys <= names && deps.Keys == sections.Keys &&
      forall f, d :: f in deps && d in deps[f] ==> d in names
    }

    /** The walk's invariant, over the values of its mutable fields. */
    ghost predicate Inv(p: set<string>, o: seq<string>, st: seq<string>, b: string) {
      Closed() &&
      p <= names &&
      Distinct(o) &&
      (forall x :: x in o ==> x in p && x in sections) &&
      (forall x :: x in st ==> x in p && x in sections && x !in o) &&
      (forall x :: x in p ==> x in o || x in st || x !in sections) &&
      (forall x, d :: x in o && d in deps[x] ==> d in p) &&
      IsPath(deps, st) &&
      b == Emit(sections, o) &&
      (forall i :: 0 <= i < |o| ==> Settled(deps, sections, o, i))
    }

    ghost predicate Valid()
      reads this
    {
      Inv(processed, order, stack, bundled)
    }

    constructor (deps: map<string, seq<string>>, sections: map<string, string>, ghost names: set<string>)
      requires sections.Keys <= names && deps.Keys == sections.Keys
      requires forall f, d :: f in deps && d in deps[f] ==> d in names
      ensures this.deps == deps && this.sections == sections && this.names == names
      ensures Valid() && processed == {} && bundled == "" && order == [] && stack == []
    {
      this.deps := deps;
      this.sections := sections;
      this.names := names;
      processed := {};
      bundled := "";
      order := [];
      stack := [];
    }

    /** `f` may be visited from the top of `st`: the stack stays a path. */
    ghost predicate CanPush(st: seq<string>, f: string) {
      st == [] || (st[|st| - 1] in deps && f in deps[st[|st| - 1]])
    }

    /** From `(p0, o0)` the walk went on to `(p, o)` while visiting `f`:
        `f` is processed, every newly processed name is reachable from
        `f`, and only names not processed before were emitted. */
    ghost predicate Extends(p0: set<string>, o0: seq<string>, p: set<string>, o: seq<string>, f: string) {
      p0 <= p && f in p && |o0| <= |o| && o[..|o0|] == o0 &&
      (forall x :: x in p ==> x in p0 || Reaches(deps, f, x)) &&
      forall k :: |o0| <= k < |o| ==> o[k] !in p0
    }

    /** Visits `f`: the model of `inlineDependencies(f)` and `processFile(f)`.
        A name processed before changes nothing; a name that is not a file
        is only marked. */
    method Visit(f: string)
      requires Valid() && f in names && CanPush(stack, f)
      modifies this
      ensures Valid() && stack == old(stack)
      ensures Extends(old(processed), old(order), processed, order, f)
      ensures f in sections && f !in old(processed) ==> |order| > 0 && order[|order| - 1] == f
      ensures f in old(processed) ==> processed == old(processed) && order == old(order)
      decreases names - processed, 1
    {
      if f in processed {
        return;
      }
      if f !in sections {
        MarkMissing(processed, order, stack, bundled, f);
        ReachesSelf(deps, f);
        processed := processed + {f};
        return;
      }
      VisitNew(f);
    }

    /** Visits a file not processed before: marks it, visits its imports in
        order, then appends its section, so it is the last name emitted. */
    method VisitNew(f: string)
      requires Valid() && f in names && f in sections && f !in processed && CanPush(stack, f)
      modifies this
      ensures Valid() && stack == old(stack)
      ensures Extends(old(processed), old(order), processed, order, f)
      ensures |order| > 0 && order[|order| - 1] == f
      decreases names - processed, 0
    {
      ghost var s0 := stack;
      assert f !in s0;
      Begin(processed, order, stack, bundled, f);
      processed := processed + {f};
      stack := stack + [f];
      assert names - processed < old(names - processed) by {
        assert f in old(names - processed) && f !in names - processed;
      }
      ghost var p1 := processed;
      VisitImports(f, s0);
      ExtendsWeaken(old(processed), p1, old(order), processed, order, f);
      Finish(processed, order, s0, bundled, f);
      ghost var o2 := order;
      stack := s0;
      order := order + [f];
      bundled := bundled + sections[f];
      AppendExtends(old(processed), old(order), processed, o2, f);
    }

    /** Visits the imports of `f`, in order, while `f` is in progress. */
    method VisitImports(f: string, ghost s0: seq<string>)
      requires Valid() && f in sections && f in processed && stack == s0 + [f]
      modifies this
      ensures Valid() && stack == old(stack)
      ensures Extends(old(processed), old(order), processed, order, f)
      ensures forall j :: 0 <= j < |deps[f]| ==> deps[f][j] in processed
      decreases names - processed, 3
    {
      var i := 0;
      ReachesSelf(deps, f);
      while i < |deps[f]|
        invariant 0 <= i <= |deps[f]|
        invariant Valid() && stack == s0 + [f]
        invariant Extends(old(processed), old(order), processed, order, f)
        invariant forall j :: 0 <= j < i ==> deps[f][j] in processed
        decreases |deps[f]| - i
      {
        assert names - processed <= old(names - processed);
        VisitImport(f, s0, i, old(processed), old(order));
        i := i + 1;
      }
    }

    /** Visits the `i`-th import of `f`: the walk of `f` goes on. */
    method VisitImport(f: string, ghost s0: seq<string>, i: nat, ghost p0: set<string>, ghost o0: seq<string>)
      requires Valid() && f in deps && i < |deps[f]| && stack == s0 + [f]
      requires Extends(p0, o0, processed, order, f)
      requires forall j :: 0 <= j < i ==> deps[f][j] in processed
      modifies this
      ensures Valid() && stack == old(stack)
      ensures forall j :: 0 <= j <= i ==> deps[f][j] in processed
      ensures Extends(p0, o0, processed, order, f)
      decreases names - processed, 2
    {
      var d := deps[f][i];
      ghost var p1, o1 := processed, order;
      assert CanPush(stack, d) && d in names;
      Visit(d);
      ExtendsThrough(p0, o0, p1, o1, processed, order, f, d);
    }

    lemma ExtendsWeaken(p0: set<string>, p1: set<string>, o0: seq<string>, p: set<string>, o: seq<string>, f: string)
      requires Extends(p1, o0, p, o, f) && p0 <= p1 && p1 == p0 + {f}
      ensures Extends(p0, o0, p, o, f)
    {
      ReachesSelf(deps, f);
    }

    lemma MarkMissing(p: set<string>, o: seq<string>, st: seq<string>, b: string, f: string)
      requires Inv(p, o, st, b) && f in names && f !in sections
      ensures Inv(p + {f}, o, st, b)
    {
    }

    /** Visiting an import `d` of `f` extends the walk of `f`. */
    lemma ExtendsThrough(p0: set<string>, o0: seq<string>, p1: set<string>, o1: seq<string>,
                         p2: set<string>, o2: seq<string>, f: string, d: string)
      requires Extends(p0, o0, p1, o1, f) && Extends(p1, o1, p2, o2, d)
      requires f in deps && d in deps[f]
      ensures Extends(p0, o0, p2, o2, f)
    {
      forall x | x in p2 ensures x in p0 || Reaches(deps, f, x) {
        if x !in p1 {
          ReachesPrepend(deps, f, d, x);
        }
      }
      forall k | |o0| <= k < |o2| ensures o2[k] !in p0 {
        if k < |o1| {
          assert o2[k] == o1[k];
        }
      }
    }

    /** Emitting `f` itself at the end extends the walk of `f`. */
    lemma AppendExtends(p0: set<string>, o0: seq<string>, p: set<string>, o: seq<string>, f: string)
      requires Extends(p0, o0, p, o, f) && f !in p0
      ensures Extends(p0, o0, p, o + [f], f)
    {
      var o2 := o + [f];
      assert o2[..|o0|] == o[..|o0|];
      forall k | |o0| <= k < |o2| ensures o2[k] !in p0 {
        if k < |o| { assert o2[k] == o[k]; }
      }
    }

    /** Marking a new file and pushing it on the stack keeps the invariant. */
    lemma Begin(p: set<string>, o: seq<string>, st: seq<string>, b: string, f: string)
      requires Inv(p, o, st, b) && f in sections && f !in p
      requires CanPush(st, f)
      ensures Inv(p + {f}, o, st + [f], b)
    {
      var st2 := st + [f];
      forall k | 0 <= k < |st2| - 1 ensures st2[k] in deps && st2[k + 1] in deps[st2[k]] {
        if k < |st| - 1 { assert st2[k] == st[k] && st2[k + 1] == st[k + 1]; }
      }
    }

    /** Popping a file whose dependencies are all processed and emitting its
        section keeps the invariant. */
    lemma Finish(p: set<string>, o: seq<string>, s0: seq<string>, b: string, f: string)
      requires Inv(p, o, s0 + [f], b) && f in sections && f !in s0
      requires forall j :: 0 <= j < |deps[f]| ==> deps[f][j] in p
      ensures Inv(p, o + [f], s0, b + sections[f])
    {
      forall d | d in deps[f] ensures d in p {
        var j :| 0 <= j < |deps[f]| && deps[f][j] == d;
      }
      EmitAppend(sections, o, f);
      assert IsPath(deps, s0) by {
        forall k | 0 <= k < |s0| - 1 ensures s0[k] in deps && s0[k + 1] in deps[s0[k]] {
          assert s0[k] == (s0 + [f])[k] && s0[k + 1] == (s0 + [f])[k + 1];
        }
      }
      assert forall x :: x in s0 ==> x in s0 + [f];
      SettleAppended(o, f, s0);
    }

    /** Appending a file whose dependencies are all emitted, in progress or
        not files keeps every emitted file settled. */
    lemma SettleAppended(o: seq<string>, f: string, s0: seq<string>)
      requires Closed() && f in sections && IsPath(deps, s0 + [f])
      requires forall j :: 0 <= j < |o| ==> Settled(deps, sections, o, j)
      requires forall d :: d in deps[f] ==> d in o || d in s0 + [f] || d !in sections
      ensures forall j :: 0 <= j < |o| + 1 ==> Settled(deps, sections, o + [f], j)
    {
      var o2 := o + [f];
      forall j | 0 <= j < |o2| ensures Settled(deps, sections, o2, j) {
        if j == |o| {
          assert o2[..j] == o;
          forall d | d in deps[f] && d in sections ensures d in o || Reaches(deps, d, f) {
            if d !in o {
              var st := s0 + [f];
              var m :| 0 <= m < |st| && st[m] == d;
              PathSuffixReaches(deps, st, m);
            }
          }
        } else {
          assert o2[..j] == o[..j] && o2[j] == o[j];
          assert Settled(deps, sections, o, j);
        }
      }
    }

    /** Once nothing is in progress, the emitted names are closed under
        imports: every file reachable from an emitted one was emitted. */
    lemma {:induction false} ReachableEmitted(a: string, p: seq<string>)
      requires Valid() && stack == []
      requires a in order && IsPath(deps, p) && |p| > 0 && p[0] == a
      requires p[|p| - 1] in sections
      ensures p[|p| - 1] in order
      decreases |p|
    {
      if |p| > 1 {
        var q := p[1..];
        assert forall k :: 0 <= k < |q| ==> q[k] == p[k + 1];
        assert p[1] in deps[a];
        ReachableEmitted(p[1], q);
      }
    }

    /** The `forEach` over the file names that visits all but `entry`. */
    method VisitAllBut(keys: seq<string>, entry: string)
      requires Valid() && stack == [] && forall x :: x in keys ==> x in names
      modifies this
      ensures Valid() && stack == []
      ensures forall x :: x in keys && x != entry ==> x in processed
      ensures Unimported(deps, entry) && entry !in old(processed) ==> entry !in processed
    {
      var i := 0;
      while i < |keys|
        invariant 0 <= i <= |keys|
        invariant Valid() && stack == []
        invariant forall j :: 0 <= j < i && keys[j] != entry ==> keys[j] in processed
        invariant Unimported(deps, entry) && entry !in old(processed) ==> entry !in processed
      {
        var f := keys[i];
        if f != entry {
          ghost var p0, o0 := processed, order;
          Visit(f);
          if Unimported(deps, entry) && entry !in old(processed) {
            Avoids(p0, o0, processed, order, f, entry);
          }
        }
        i := i + 1;
      }
    }

    /** Once nothing is in progress, the processed files are exactly the
        emitted ones. */
    lemma Emitted()
      requires Valid() && stack == []
      ensures forall x :: x in order <==> x in processed && x in sections
    {
    }

    /** A visit from `f` does not process a name that no file imports. */
    lemma Avoids(p0: set<string>, o0: seq<string>, p: set<string>, o: seq<string>, f: string, e: string)
      requires Extends(p0, o0, p, o, f) && Unimported(deps, e) && e != f && e !in p0
      ensures e !in p
    {
      UnimportedUnreached(deps, f, e);
    }

    /** The same, for every file reachable from an emitted one. */
    lemma ReachClosed(a: string)
      requires Valid() && stack == [] && a in order
      ensures forall x :: x in sections && Reaches(deps, a, x) ==> x in order
    {
      forall x | x in sections && Reaches(deps, a, x) ensures x in order {
        var p :| IsPath(deps, p) && |p| > 0 && p[0] == a && p[|p| - 1] == x;
        ReachableEmitted(a, p);
      }
    }
  }

  /** Every name an import mentions. */
  ghost function Mentioned(deps: map<string, seq<string>>): (r: set<string>)
    ensures forall f, d :: f in deps && d in deps[f] ==> d in r
  {
    set f, d | f in deps && d in deps[f] :: d
  }

  /** A walk from one entry name. Every file is emitted at most once, only
      files reachable from the entry are emitted and all of them are, a
      file's dependencies come before it unless they import it back, and
      the entry, when it is a file, comes last. */
  method WalkFrom(deps: map<string, seq<string>>, sections: map<string, string>, entry: string)
    returns (bundled: string, ghost order: seq<string>)
    requires deps.Keys == sections.Keys
    ensures Distinct(order) && forall x :: x in order ==> x in sections
    ensures bundled == Emit(sections, order)
    ensures forall x :: x in order ==> Reaches(deps, entry, x)
    ensures entry in sections ==>
      |order| > 0 && order[|order| - 1] == entry &&
      forall x :: x in sections && Reaches(deps, entry, x) ==> x in order
    ensures forall i :: 0 <= i < |order| ==> Settled(deps, sections, order, i)
  {
    ghost var names := sections.Keys + Mentioned(deps) + {entry};
    var w := new Walk(deps, sections, names);
    w.Visit(entry);
    if entry in sections {
      w.ReachClosed(entry);
    }
    assert forall x :: x in w.order ==> x in w.processed;
    bundled := w.bundled;
    order := w.order;
  }

  /** A walk from every name of `keys` but `entry`, in order, and then
      from `entry`. When `keys` lists the files, every file is emitted
      exactly once, and the entry comes last unless a file imports it. */
  method WalkAllThenEntry(deps: map<string, seq<string>>, sections: map<string, string>, keys: seq<string>, entry: string)
    returns (bundled: string, ghost order: seq<string>)
    requires deps.Keys == sections.Keys
    requires forall x :: x in keys <==> x in sections
    ensures Distinct(order) && forall x :: x in order <==> x in sections
    ensures bundled == Emit(sections, order)
    ensures entry in sections && Unimported(deps, entry) ==> |order| > 0 && order[|order| - 1] == entry
    ensures forall i :: 0 <= i < |order| ==> Settled(deps, sections, order, i)
  {
    ghost var names := sections.Keys + Mentioned(deps) + {entry};
    var w := new Walk(deps, sections, names);
    w.VisitAllBut(keys, entry);
    w.Visit(entry);
    assert forall x :: x in keys ==> x in w.processed;
    w.Emitted();
    bundled := w.bundled;
    order := w.order;
  }
}
