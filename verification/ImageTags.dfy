/** Content-addressed image tags: the memoised computation and its recursive definition. */
module ImageTags {
  import opened Strings
  import opened BuildOrder

  /** A dependency: the build argument and the image it stands for. */
  datatype Dep = Dep(arg: string, image: string)

  /** What the tags are computed from: the dependencies of each image as listed, the
      contents of the Dockerfiles that exist, the extra build arguments, the parts of a tag,
      and the hash of a Dockerfile followed by its sorted build arguments, all run together. */
  datatype Builder = Builder(
    configs: map<string, seq<Dep>>,
    dockerfiles: map<string, string>,
    packages: map<string, seq<string>>,
    keys: map<string, seq<string>>,
    repositories: map<string, seq<string>>,
    repo: string, namespace: string, arch: string,
    hash: string -> string)

  function GraphOf(b: Builder): (g: Graph) {
    map n | n in b.configs :: set d | d in b.configs[n] :: d.image
  }

  function ImageTag(b: Builder, name: string, sha: string): (t: string) {
    var path := b.namespace + "/" + name + ":" + b.arch + "-" + sha;
    if b.repo != "" then b.repo + "/" + path else path
  }

  function Join(s: seq<string>): (t: string) {
    if s == [] then "" else if |s| == 1 then s[0] else s[0] + " " + Join(s[1..])
  }

  function Extra(m: map<string, seq<string>>, arg: string, name: string): (s: seq<string>) {
    if name in m && m[name] != [] then [arg + "=" + Join(m[name])] else []
  }

  function Extras(b: Builder, name: string): (s: seq<string>) {
    Extra(b.packages, "EXTRA_PACKAGES", name) + Extra(b.keys, "EXTRA_KEYS", name) +
    Extra(b.repositories, "EXTRA_REPOSITORIES", name)
  }

  /** On the names of `s`, which is closed under dependencies, `rank` witnesses that no
      image depends on itself. */
  ghost predicate Ranked(b: Builder, s: set<string>, rank: string -> nat) {
    forall n, d :: n in s && n in b.configs && d in b.configs[n] ==> d.image in s && rank(d.image) < rank(n)
  }

  /** The build argument for a dependency. */
  ghost function Arg(b: Builder, s: set<string>, rank: string -> nat, n: string, d: Dep): (a: Option<string>)
    requires Ranked(b, s, rank) && n in s && n in b.configs
    decreases rank(n), 0
  {
    if d !in b.configs[n] then None
    else
      var t := Tag(b, s, rank, d.image);
      if t.None? then None else Some(d.arg + "=" + t.value)
  }

  /** The tag of an image, by recursion over its dependencies; nothing if it or an image it
      depends on is unknown or has no Dockerfile. */
  ghost function Tag(b: Builder, s: set<string>, rank: string -> nat, n: string): (t: Option<string>)
    requires Ranked(b, s, rank) && n in s
    decreases rank(n), 2
  {
    if n !in b.configs || n !in b.dockerfiles then None
    else Assemble(b, n, ArgsOf(b, s, rank, n))
  }

  /** The build arguments for the dependencies of an image, as listed. */
  ghost function ArgsOf(b: Builder, s: set<string>, rank: string -> nat, n: string): (args: seq<Option<string>>)
    requires Ranked(b, s, rank) && n in s && n in b.configs
    ensures |args| == |b.configs[n]|
    decreases rank(n), 1
  {
    Map(d => Arg(b, s, rank, n, d), b.configs[n])
  }

  /** The tag of an image from its build arguments. */
  ghost function Assemble(b: Builder, n: string, args: seq<Option<string>>): (t: Option<string>)
    requires n in b.dockerfiles
  {
    if None in args then None
    else Some(ImageTag(b, n, b.hash(b.dockerfiles[n] + Concat(Sort(Values(args) + Extras(b, n))))))
  }

  ghost function Values(os: seq<Option<string>>): (s: seq<string>)
    requires None !in os
  {
    seq(|os|, i requires 0 <= i < |os| => assert os[i] in os; os[i].value)
  }

  /** Two builders agree on the names of `t`, which is closed under dependencies: the same
      images with the same contents, their dependencies listed in any order. */
  ghost predicate Alike(b: Builder, c: Builder, t: set<string>) {
    && b.repo == c.repo && b.namespace == c.namespace && b.arch == c.arch && b.hash == c.hash
    && (forall n :: n in t ==> (n in b.configs <==> n in c.configs) && (n in b.dockerfiles <==> n in c.dockerfiles))
    && (forall n :: n in t && n in b.dockerfiles ==> b.dockerfiles[n] == c.dockerfiles[n])
    && (forall n :: n in t ==> Extras(b, n) == Extras(c, n))
    && (forall n :: n in t && n in b.configs ==> multiset(b.configs[n]) == multiset(c.configs[n]))
    && (forall n, d :: n in t && n in b.configs && d in b.configs[n] ==> d.image in t)
  }

  /** The tag of an image depends only on the images it depends on, directly or not: not on
      which other images there are or were asked for, not on how the dependencies are
      listed, and not on the order in which anything is processed. */
  lemma {:induction false} TagsAlike(b: Builder, s: set<string>, rank: string -> nat,
                                     c: Builder, s': set<string>, rank': string -> nat, t: set<string>, n: string)
    requires Ranked(b, s, rank) && Ranked(c, s', rank') && Alike(b, c, t) && n in s && n in s' && n in t
    ensures Tag(b, s, rank, n) == Tag(c, s', rank', n)
    decreases rank(n), 1
  {
    hide Ranked, Arg, Assemble;
    if n in b.configs && n in b.dockerfiles {
      var f := (d: Dep) => Arg(b, s, rank, n, d);
      var f' := (d: Dep) => Arg(c, s', rank', n, d);
      forall d: Dep
        ensures f(d) == f'(d)
      {
        ArgAlike(b, s, rank, c, s', rank', t, n, d);
      }
      MapSame(f, f', b.configs[n], c.configs[n]);
      AssembleAlike(b, c, t, n, Map(f, b.configs[n]), Map(f', c.configs[n]));
    }
  }

  lemma MapSame<T(!new), R>(f: T -> R, f': T -> R, s: seq<T>, t: seq<T>)
    requires multiset(s) == multiset(t) && forall x :: f(x) == f'(x)
    ensures multiset(Map(f, s)) == multiset(Map(f', t))
  {
    MapBag(f, s, t);
    assert Map(f', t) == Map(f, t);
  }

  lemma AssembleAlike(b: Builder, c: Builder, t: set<string>, n: string, args: seq<Option<string>>,
                      args': seq<Option<string>>)
    requires Alike(b, c, t) && n in t && n in b.dockerfiles && multiset(args) == multiset(args')
    ensures Assemble(b, n, args) == Assemble(c, n, args')
  {
    hide Sort, Concat, Extras;
    ArgsAlike(args, args', Extras(b, n));
  }

  lemma {:induction false} ArgAlike(b: Builder, s: set<string>, rank: string -> nat,
                                    c: Builder, s': set<string>, rank': string -> nat, t: set<string>, n: string,
                                    d: Dep)
    requires Ranked(b, s, rank) && Ranked(c, s', rank') && Alike(b, c, t) && n in s && n in s' && n in t
    requires n in b.configs && n in c.configs
    ensures Arg(b, s, rank, n, d) == Arg(c, s', rank', n, d)
    decreases rank(n), 0
  {
    hide Tag, Extras;
    BagMember(b.configs[n], d);
    BagMember(c.configs[n], d);
    if d in b.configs[n] {
      TagsAlike(b, s, rank, c, s', rank', t, d.image);
    }
  }

  lemma ArgsAlike(args: seq<Option<string>>, args': seq<Option<string>>, extras: seq<string>)
    requires multiset(args) == multiset(args')
    ensures None in args <==> None in args'
    ensures None !in args ==> Sort(Values(args) + extras) == Sort(Values(args') + extras)
  {
    BagMember(args, None);
    BagMember(args', None);
    if None !in args {
      var v := (o: Option<string>) => if o.None? then "" else o.value;
      MapBag(v, args, args');
      assert Values(args) == Map(v, args) && Values(args') == Map(v, args');
      SortBag(Values(args) + extras, Values(args') + extras);
    }
  }

  lemma TagUnfolds(b: Builder, s: set<string>, rank: string -> nat, n: string)
    requires Ranked(b, s, rank) && n in s
    ensures Tag(b, s, rank, n) ==
            if n !in b.configs || n !in b.dockerfiles then None else Assemble(b, n, ArgsOf(b, s, rank, n))
  {
  }

  lemma ArgAt(b: Builder, s: set<string>, rank: string -> nat, n: string, i: nat)
    requires Ranked(b, s, rank) && n in s && n in b.configs && i < |b.configs[n]|
    ensures var d := b.configs[n][i];
            && d in b.configs[n] && d.image in s && rank(d.image) < rank(n)
            && ArgsOf(b, s, rank, n)[i] ==
               var t := Tag(b, s, rank, d.image); if t.None? then None else Some(d.arg + "=" + t.value)
  {
    assert b.configs[n][i] in b.configs[n];
  }

  lemma AssembleNone(b: Builder, n: string, args: seq<Option<string>>, i: nat)
    requires n in b.dockerfiles && i < |args| && args[i] == None
    ensures Assemble(b, n, args) == None
  {
  }

  lemma AssembleAll(b: Builder, n: string, args: seq<Option<string>>, values: seq<string>)
    requires n in b.dockerfiles && |args| == |values| && forall i :: 0 <= i < |args| ==> args[i] == Some(values[i])
    ensures Assemble(b, n, args) == Some(ImageTag(b, n, b.hash(b.dockerfiles[n] + Concat(Sort(values + Extras(b, n))))))
  {
    assert Values(args) == values;
  }

  /** A memo holds tags by the definition, and with an image all it depends on. */
  ghost predicate Memo(b: Builder, s: set<string>, rank: string -> nat, m: map<string, string>)
    requires Ranked(b, s, rank)
  {
    && (forall n :: n in m ==> n in s && Tag(b, s, rank, n) == Some(m[n]))
    && (forall n, d :: n in m && n in b.configs && d in b.configs[n] ==> d.image in m)
  }

  /** What is in the memo stays. */
  ghost predicate Grows(m: map<string, string>, m': map<string, string>) {
    forall n :: n in m ==> n in m' && m'[n] == m[n]
  }

  lemma MemoHit(b: Builder, s: set<string>, rank: string -> nat, m: map<string, string>, n: string)
    requires Ranked(b, s, rank) && Memo(b, s, rank, m) && n in m
    ensures n in s && Tag(b, s, rank, n) == Some(m[n])
  {
  }

  lemma MemoAdd(b: Builder, s: set<string>, rank: string -> nat, m: map<string, string>, n: string, tag: string)
    requires Ranked(b, s, rank) && Memo(b, s, rank, m) && n in s && Tag(b, s, rank, n) == Some(tag) && n !in m
    requires n in b.configs && forall i :: 0 <= i < |b.configs[n]| ==> b.configs[n][i].image in m
    ensures Memo(b, s, rank, m[n := tag]) && Grows(m, m[n := tag])
  {
    hide Tag, Ranked;
  }

  lemma GrowsTrans(a: map<string, string>, b: map<string, string>, c: map<string, string>)
    requires Grows(a, b) && Grows(b, c)
    ensures Grows(a, c)
  {
  }

  /** The builder with its memo of tags. */
  class DockerBuilder {
    const b: Builder
    var generated: map<string, string>
    /** The names found to be free of cycles so far, and the witness for it. */
    ghost var known: set<string>
    ghost var rank: string -> nat

    ghost predicate Valid()
      reads this
    {
      Ranked(b, known, rank) && Memo(b, known, rank, generated)
    }

    constructor (b: Builder)
      ensures this.b == b && generated == map[] && Valid()
    {
      this.b, generated := b, map[];
      known, rank := {}, _ => 0;
    }

    /** The memoised recursion computes the tag by the definition. */
    method CalculateTagForImage(name: string) returns (r: Option<string>)
      requires Valid() && name in known
      modifies this`generated
      ensures Valid() && r == Tag(b, known, rank, name)
      ensures Grows(old(generated), generated)
      ensures r.Some? ==> name in generated && generated[name] == r.value
      decreases rank(name)
    {
      hide Sort, Concat, Extras, ImageTag, Tag, ArgsOf, Ranked, Assemble, Memo;
      TagUnfolds(b, known, rank, name);
      if name in generated {
        MemoHit(b, known, rank, generated, name);
        return Some(generated[name]);
      }
      if name !in b.configs || name !in b.dockerfiles {
        return None;
      }
      var deps := b.configs[name];
      ghost var all := ArgsOf(b, known, rank, name);
      var args: seq<string> := [];
      for i := 0 to |deps|
        invariant Valid() && Grows(old(generated), generated)
        invariant |args| == i && forall j :: 0 <= j < i ==> all[j] == Some(args[j])
        invariant forall j :: 0 <= j < i ==> deps[j].image in generated
      {
        ArgAt(b, known, rank, name, i);
        ghost var before := generated;
        var t := CalculateTagForImage(deps[i].image);
        GrowsTrans(old(generated), before, generated);
        if t.None? {
          AssembleNone(b, name, all, i);
          return None;
        }
        args := args + [deps[i].arg + "=" + t.value];
      }
      AssembleAll(b, name, all, args);
      var sha := b.hash(b.dockerfiles[name] + Concat(Sort(args + Extras(b, name))));
      var tag := ImageTag(b, name, sha);
      if name in generated {
        MemoHit(b, known, rank, generated, name);
        assert generated[name := tag] == generated;
      } else {
        MemoAdd(b, known, rank, generated, name, tag);
        GrowsTrans(old(generated), generated, generated[name := tag]);
      }
      generated := generated[name := tag];
      r := Some(tag);
    }

    /** Takes note that the images of a build order are free of cycles; tags calculated
        before stay as they are. */
    ghost method Extend(order: seq<string>)
      requires Valid() && IsOrder(GraphOf(b), order)
      modifies this`known, this`rank
      ensures Valid() && known == old(known) + Listed(order)
    {
      hide Tag, Ranked;
      OrderIsRanked(b, order);
      var s, r := Merge(b, known, rank, Listed(order), PositionIn(order));
      forall n | n in generated
        ensures Tag(b, s, r, n) == Tag(b, known, rank, n)
      {
        AlikeItself(b, known, rank);
        TagsAlike(b, s, r, b, known, rank, known, n);
      }
      known, rank := s, r;
    }

    /** The tags of all images of a build order, in that order, or nothing if one of them
        has none: whatever was calculated before, they are the tags by the definition. */
    method TagsInOrder(order: seq<string>) returns (tags: Option<seq<string>>)
      requires Valid() && IsOrder(GraphOf(b), order)
      modifies this
      ensures Valid() && OrderRanks(b, order)
      ensures var all := TagsOf(b, order);
              if None in all then tags == None else tags == Some(Values(all))
    {
      hide Tag, Ranked;
      OrderIsRanked(b, order);
      Extend(order);
      ghost var all := TagsOf(b, order);
      var done: seq<string> := [];
      for i := 0 to |order|
        invariant Valid() && Listed(order) <= known
        invariant |done| == i && forall j :: 0 <= j < i ==> all[j] == Some(done[j])
      {
        var t := CalculateTagForImage(order[i]);
        AlikeItself(b, Listed(order), PositionIn(order));
        TagsAlike(b, known, rank, b, Listed(order), PositionIn(order), Listed(order), order[i]);
        if t.None? {
          assert all[i] == None;
          return None;
        }
        done := done + [t.value];
      }
      assert Values(all) == done;
      tags := Some(done);
    }

    /** The tags for the given targets and all they depend on, or for all images: nothing if
        images depend on each other in a cycle, or if one of them has no tag. */
    method CalculateTags(targets: set<string>)
      returns (order: Option<seq<string>>, tags: Option<seq<string>>, ghost knot: set<string>)
      requires Valid()
      modifies this
      ensures Valid()
      ensures order.None? ==> IsKnot(GraphOf(b), knot) && tags == None
      ensures order.Some? ==> IsOrder(GraphOf(b), order.value) && OrderRanks(b, order.value)
      ensures order.Some? && targets == {} ==> forall n :: n in order.value <==> n in Nodes(GraphOf(b))
      ensures order.Some? && targets != {} ==> forall n :: n in order.value <==> Included(GraphOf(b), targets, n)
      ensures order.Some? ==> forall n :: n in targets && n in b.configs ==> n in order.value
      ensures order.Some? ==>
                var all := TagsOf(b, order.value);
                if None in all then tags == None else tags == Some(Values(all))
    {
      hide IsOrder, IsKnot, OrderRanks, Memo, Ranked;
      order, knot := GetBuildOrder(GraphOf(b), targets);
      if order.None? {
        return order, None, knot;
      }
      forall n | n in targets
        ensures Reachable(GraphOf(b), targets, n)
      {
        TargetReachable(GraphOf(b), targets, n);
      }
      tags := TagsInOrder(order.value);
    }

    /** The build arguments for the dependencies of an image whose tag was calculated: every
        tag is there to be looked up. */
    method DependencyTags(name: string) returns (args: seq<(string, string)>)
      requires Valid() && name in generated && name in b.configs
      ensures |args| == |b.configs[name]|
      ensures forall i :: 0 <= i < |args| ==>
                && args[i].0 == b.configs[name][i].arg && b.configs[name][i].image in known
                && Some(args[i].1) == Tag(b, known, rank, b.configs[name][i].image)
    {
      hide Tag, Ranked;
      var deps := b.configs[name];
      args := [];
      for i := 0 to |deps|
        invariant |args| == i
        invariant forall j :: 0 <= j < i ==>
                    && args[j].0 == deps[j].arg && deps[j].image in known
                    && Some(args[j].1) == Tag(b, known, rank, deps[j].image)
      {
        assert deps[i] in deps;
        args := args + [(deps[i].arg, generated[deps[i].image])];
      }
    }
  }

  /** The rank of a union of two sets that are each free of cycles and closed. */
  lemma Merge(b: Builder, s: set<string>, rank: string -> nat, s': set<string>, rank': string -> nat)
    returns (u: set<string>, r: string -> nat)
    requires Ranked(b, s, rank) && Ranked(b, s', rank')
    ensures u == s + s' && Ranked(b, u, r)
  {
    var top := Highest(s, rank);
    u := s + s';
    r := n => if n in s then rank(n) else top + rank'(n);
  }

  lemma {:induction false} Highest(s: set<string>, rank: string -> nat) returns (top: nat)
    ensures forall n :: n in s ==> rank(n) < top
  {
    if s == {} {
      top := 0;
    } else {
      var x :| x in s;
      top := Highest(s - {x}, rank);
      top := if rank(x) < top then top else rank(x) + 1;
      assert forall n :: n in s ==> n == x || n in s - {x};
    }
  }

  lemma AlikeItself(b: Builder, s: set<string>, rank: string -> nat)
    requires Ranked(b, s, rank)
    ensures Alike(b, b, s)
  {
  }

  ghost function Listed(order: seq<string>): (s: set<string>) {
    set n | n in order
  }

  ghost function Position(order: seq<string>, n: string): (k: nat) {
    if order == [] || order[0] == n then 0 else 1 + Position(order[1..], n)
  }

  ghost function PositionIn(order: seq<string>): (rank: string -> nat) {
    n => Position(order, n)
  }

  ghost predicate OrderRanks(b: Builder, order: seq<string>) {
    Ranked(b, Listed(order), PositionIn(order))
  }

  ghost function TagsOf(b: Builder, order: seq<string>): (tags: seq<Option<string>>)
    requires OrderRanks(b, order)
    ensures |tags| == |order|
  {
    seq(|order|, i requires 0 <= i < |order| => Tag(b, Listed(order), PositionIn(order), order[i]))
  }

  lemma {:induction false} PositionFound(order: seq<string>, i: nat)
    requires i < |order| && forall j :: 0 <= j < i ==> order[j] != order[i]
    ensures Position(order, order[i]) == i
  {
    if i > 0 {
      assert forall j :: 0 <= j < i - 1 ==> order[1..][j] != order[1..][i - 1];
      PositionFound(order[1..], i - 1);
    }
  }

  /** In a build order every image comes after its dependencies. */
  lemma OrderIsRanked(b: Builder, order: seq<string>)
    requires IsOrder(GraphOf(b), order)
    ensures OrderRanks(b, order)
  {
    forall n, d | n in Listed(order) && n in b.configs && d in b.configs[n]
      ensures d.image in Listed(order) && Position(order, d.image) < Position(order, n)
    {
      var i :| 0 <= i < |order| && order[i] == n;
      assert d.image in Deps(GraphOf(b), order[i]);
      assert d.image in order[..i];
      var j :| 0 <= j < i && order[j] == d.image;
      PositionFound(order, i);
      PositionFound(order, j);
    }
  }
}
