/** When tags tell contents apart: the hash sees a Dockerfile and its build arguments run
    together, so that not all differences show; with the same arguments, those between
    Dockerfiles do. */
module ContentTags {
  import opened Strings
  import opened BuildOrder
  import opened ImageTags

  // ---------------------------------------------------------------- what runs together

  lemma {:induction false} LeqPrefix(p: string, a: string, b: string)
    ensures Leq(p + a, p + b) <==> Leq(a, b)
  {
    if p == [] {
      assert p + a == a && p + b == b;
    } else {
      LeqPrefix(p[1..], a, b);
      assert (p + a)[1..] == p[1..] + a && (p + b)[1..] == p[1..] + b;
    }
  }

  /** A builder with one image that depends on nothing. */
  function Single(name: string, file: string, packages: map<string, seq<string>>, keys: map<string, seq<string>>,
                  hash: string -> string): (b: Builder) {
    Builder(map[name := []], map[name := file], packages, keys, map[], "", "", "", hash)
  }

  /** Different arguments can have the same tag, whatever the hash: a key and a package, and
      a key that ends like an argument for the package. */
  lemma RunTogether(name: string, file: string, x: string, y: string, hash: string -> string)
    ensures var b := Single(name, file, map[name := [x]], map[name := [y]], hash);
            var c := Single(name, file, map[], map[name := [y + "EXTRA_PACKAGES=" + x]], hash);
            && Extras(b, name) != Extras(c, name)
            && Ranked(b, {name}, _ => 0) && Ranked(c, {name}, _ => 0)
            && Tag(b, {name}, _ => 0, name) == Tag(c, {name}, _ => 0, name) != None
  {
    hide Sort, Concat, Leq, Join;
    var b := Single(name, file, map[name := [x]], map[name := [y]], hash);
    var c := Single(name, file, map[], map[name := [y + "EXTRA_PACKAGES=" + x]], hash);
    var p, k := "EXTRA_PACKAGES=" + x, "EXTRA_KEYS=" + y;
    ExtraArg(b.packages, "EXTRA_PACKAGES", name, x);
    ExtraArg(b.keys, "EXTRA_KEYS", name, y);
    ExtraArg(c.keys, "EXTRA_KEYS", name, y + "EXTRA_PACKAGES=" + x);
    assert "EXTRA_PACKAGES" + "=" == "EXTRA_PACKAGES=" && "EXTRA_KEYS" + "=" == "EXTRA_KEYS=";
    assert k + p == "EXTRA_KEYS=" + (y + "EXTRA_PACKAGES=" + x);
    assert Extras(b, name) == [p, k] && Extras(c, name) == [k + p];
    TwoArgs(x, y);
    OneArg(k + p);
    NoDeps(b, name);
    NoDeps(c, name);
  }

  lemma ExtraArg(m: map<string, seq<string>>, arg: string, name: string, v: string)
    requires name in m && m[name] == [v]
    ensures Extra(m, arg, name) == [arg + "=" + v]
  {
  }

  lemma TwoArgs(x: string, y: string)
    ensures var p, k := "EXTRA_PACKAGES=" + x, "EXTRA_KEYS=" + y; Concat(Sort([p, k])) == k + p
  {
    var p, k := "EXTRA_PACKAGES=" + x, "EXTRA_KEYS=" + y;
    var p1, k1 := "PACKAGES=" + x, "KEYS=" + y;
    assert p == "EXTRA_" + p1 && k == "EXTRA_" + k1;
    assert p1[0] == 'P' && k1[0] == 'K';
    LeqPrefix("EXTRA_", p1, k1);
    assert !Leq(p, k);
    assert [p, k][1..] == [k] && [k][1..] == [];
    assert Sort([k]) == [k];
    assert Insert(p, [k]) == [k] + Insert(p, [k][1..]) == [k, p];
    assert [k, p][1..] == [p] && [p][1..] == [];
    assert Concat([p]) == p + "" == p;
  }

  lemma OneArg(a: string)
    ensures Concat(Sort([a])) == a
  {
    assert [a][1..] == [];
    assert Sort([a]) == [a];
  }

  lemma NoDeps(b: Builder, name: string)
    requires b.configs == map[name := []] && name in b.dockerfiles
    ensures Ranked(b, {name}, _ => 0)
    ensures Tag(b, {name}, _ => 0, name) ==
            Some(ImageTag(b, name, b.hash(b.dockerfiles[name] + Concat(Sort(Extras(b, name))))))
  {
    hide Sort, Concat, Extras;
    var args := ArgsOf(b, {name}, _ => 0, name);
    assert args == [];
    AssembleAll(b, name, args, []);
    assert [] + Extras(b, name) == Extras(b, name);
  }

  // ---------------------------------------------------------------- sorting two lists alike

  type Pair = (string, string)

  ghost function Firsts(ps: seq<Pair>): (s: seq<string>)
    ensures |s| == |ps| && forall i :: 0 <= i < |ps| ==> s[i] == ps[i].0
  {
    seq(|ps|, i requires 0 <= i < |ps| => ps[i].0)
  }

  ghost function Seconds(ps: seq<Pair>): (s: seq<string>)
    ensures |s| == |ps| && forall i :: 0 <= i < |ps| ==> s[i] == ps[i].1
  {
    seq(|ps|, i requires 0 <= i < |ps| => ps[i].1)
  }

  ghost function InsertPair(p: Pair, ps: seq<Pair>): (qs: seq<Pair>) {
    if ps == [] || Leq(p.0, ps[0].0) then [p] + ps else [ps[0]] + InsertPair(p, ps[1..])
  }

  ghost function SortPairs(ps: seq<Pair>): (qs: seq<Pair>) {
    if ps == [] then [] else InsertPair(ps[0], SortPairs(ps[1..]))
  }

  /** Two pairs are in the same order by either component. */
  ghost predicate Alike2(p: Pair, q: Pair) {
    Leq(p.0, q.0) <==> Leq(p.1, q.1)
  }

  lemma {:induction false} InsertFirsts(p: Pair, ps: seq<Pair>)
    ensures Firsts(InsertPair(p, ps)) == Insert(p.0, Firsts(ps))
  {
    hide Leq;
    if ps != [] && !Leq(p.0, ps[0].0) {
      InsertFirsts(p, ps[1..]);
      assert Firsts(ps)[1..] == Firsts(ps[1..]);
    }
  }

  lemma {:induction false} InsertSeconds(p: Pair, ps: seq<Pair>)
    requires forall q :: q in ps ==> Alike2(p, q)
    ensures Seconds(InsertPair(p, ps)) == Insert(p.1, Seconds(ps))
  {
    hide Leq;
    if ps != [] {
      assert Alike2(p, ps[0]);
      if !Leq(p.0, ps[0].0) {
        InsertSeconds(p, ps[1..]);
        assert Seconds(ps)[1..] == Seconds(ps[1..]);
      }
    }
  }

  lemma {:induction false} InsertMembers(p: Pair, ps: seq<Pair>)
    ensures forall q :: q in InsertPair(p, ps) <==> q == p || q in ps
  {
    hide Leq;
    if ps != [] && !Leq(p.0, ps[0].0) {
      InsertMembers(p, ps[1..]);
    }
  }

  lemma {:induction false} SortBoth(ps: seq<Pair>)
    requires forall p, q :: p in ps && q in ps ==> Alike2(p, q)
    ensures Firsts(SortPairs(ps)) == Sort(Firsts(ps)) && Seconds(SortPairs(ps)) == Sort(Seconds(ps))
    ensures forall q :: q in SortPairs(ps) <==> q in ps
  {
    hide Alike2;
    if ps != [] {
      SortBoth(ps[1..]);
      assert Firsts(ps)[1..] == Firsts(ps[1..]) && Seconds(ps)[1..] == Seconds(ps[1..]);
      InsertFirsts(ps[0], SortPairs(ps[1..]));
      InsertSeconds(ps[0], SortPairs(ps[1..]));
      InsertMembers(ps[0], SortPairs(ps[1..]));
    }
  }

  /** Run together, strings of the same lengths can be told apart again. */
  lemma {:induction false} ConcatBoth(ps: seq<Pair>)
    requires forall p :: p in ps ==> |p.0| == |p.1|
    ensures |Concat(Firsts(ps))| == |Concat(Seconds(ps))|
    ensures Concat(Firsts(ps)) == Concat(Seconds(ps)) ==> forall p :: p in ps ==> p.0 == p.1
  {
    if ps != [] {
      ConcatBoth(ps[1..]);
      assert Firsts(ps)[1..] == Firsts(ps[1..]) && Seconds(ps)[1..] == Seconds(ps[1..]);
      SplitSame(ps[0].0, Concat(Firsts(ps[1..])), ps[0].1, Concat(Seconds(ps[1..])));
      assert ps[0] in ps;
    }
  }

  lemma SplitSame(a: string, b: string, c: string, d: string)
    requires |a| == |c| || |b| == |d|
    ensures a + b == c + d <==> a == c && b == d
  {
    if a + b == c + d {
      assert |a| + |b| == |c| + |d|;
      assert (a + b)[..|a|] == a && (c + d)[..|c|] == c && (a + b)[|a|..] == b && (c + d)[|c|..] == d;
    }
  }

  /** A Dockerfile and its sorted arguments can be told apart from another Dockerfile with
      other arguments if these are of the same lengths and sorted alike. */
  lemma Separates(file: string, file': string, ps: seq<Pair>)
    requires forall p, q :: p in ps && q in ps ==> Alike2(p, q)
    requires forall p :: p in ps ==> |p.0| == |p.1|
    requires file + Concat(Sort(Firsts(ps))) == file' + Concat(Sort(Seconds(ps)))
    ensures file == file' && forall p :: p in ps ==> p.0 == p.1
  {
    hide Concat, Sort, Leq;
    SortBoth(ps);
    ConcatBoth(SortPairs(ps));
    SplitSame(file, Concat(Sort(Firsts(ps))), file', Concat(Sort(Seconds(ps))));
  }

  // ---------------------------------------------------------------- named arguments

  lemma {:induction false} LeqKeys(k: string, k': string, u: string, u': string)
    requires !(k <= k') && !(k' <= k)
    ensures Leq(k + u, k' + u') <==> Leq(k, k')
  {
    if k[0] == k'[0] {
      assert k == [k[0]] + k[1..] && k' == [k'[0]] + k'[1..];
      LeqKeys(k[1..], k'[1..], u, u');
      assert (k + u)[1..] == k[1..] + u && (k' + u')[1..] == k'[1..] + u';
    }
  }

  lemma KeysApart(n: string, n': string)
    requires n != n' && '=' !in n && '=' !in n'
    ensures !(n + "=" <= n' + "=")
  {
    assert (n + "=")[|n|] == '=' && (n + "=")[..|n|] == n && (n' + "=")[..|n'|] == n';
    assert forall i :: 0 <= i < |n'| ==> (n' + "=")[i] == n'[i];
  }

  /** Both components of the pair are an argument of that name. */
  ghost predicate Names(n: string, p: Pair) {
    '=' !in n && n + "=" <= p.0 && n + "=" <= p.1
  }

  lemma NamedAlike(n: string, n': string, p: Pair, p': Pair)
    requires Names(n, p) && Names(n', p') && (n == n' ==> p == p')
    ensures Alike2(p, p')
  {
    if n == n' {
      LeqTotal(p.0, p.0);
      LeqTotal(p.1, p.1);
    } else {
      KeysApart(n, n');
      KeysApart(n', n);
      var k, k' := n + "=", n' + "=";
      LeqKeys(k, k', p.0[|k|..], p'.0[|k'|..]);
      LeqKeys(k, k', p.1[|k|..], p'.1[|k'|..]);
      assert p.0 == k + p.0[|k|..] && p.1 == k + p.1[|k|..];
      assert p'.0 == k' + p'.0[|k'|..] && p'.1 == k' + p'.1[|k'|..];
    }
  }

  lemma AllAlike(names: seq<string>, ps: seq<Pair>)
    requires |names| == |ps| && forall i :: 0 <= i < |ps| ==> Names(names[i], ps[i])
    requires forall i, j :: 0 <= i < j < |names| ==> names[i] != names[j]
    ensures forall p, q :: p in ps && q in ps ==> Alike2(p, q)
  {
    hide Names, Alike2;
    forall p, q | p in ps && q in ps
      ensures Alike2(p, q)
    {
      var i :| 0 <= i < |ps| && ps[i] == p;
      var j :| 0 <= j < |ps| && ps[j] == q;
      assert names[i] == names[j] ==> i == j;
      NamedAlike(names[i], names[j], p, q);
    }
  }

  // ---------------------------------------------------------------- tags and Dockerfiles

  /** The names of the arguments that Extras adds. */
  ghost function ExtraName(m: map<string, seq<string>>, arg: string, name: string): (s: seq<string>) {
    if name in m && m[name] != [] then [arg] else []
  }

  ghost function ExtraNames(b: Builder, name: string): (s: seq<string>) {
    ExtraName(b.packages, "EXTRA_PACKAGES", name) + ExtraName(b.keys, "EXTRA_KEYS", name) +
    ExtraName(b.repositories, "EXTRA_REPOSITORIES", name)
  }

  /** The build arguments for the dependencies of an image have names of their own, without
      an equals sign. */
  ghost predicate WellNamed(b: Builder, n: string)
    requires n in b.configs
  {
    var deps := b.configs[n];
    && (forall i :: 0 <= i < |deps| ==> '=' !in deps[i].arg)
    && (forall i :: 0 <= i < |deps| ==> deps[i].arg !in ["EXTRA_PACKAGES", "EXTRA_KEYS", "EXTRA_REPOSITORIES"])
    && (forall i, j :: 0 <= i < j < |deps| ==> deps[i].arg != deps[j].arg)
  }

  /** Two builders that differ in their Dockerfiles at most. */
  ghost predicate Variants(b: Builder, c: Builder) {
    c == b.(dockerfiles := c.dockerfiles)
  }

  ghost predicate HasTag(b: Builder, s: set<string>, rank: string -> nat, n: string) {
    Ranked(b, s, rank) && n in s && Tag(b, s, rank, n).Some?
  }

  /** What is hashed for the tag of an image. */
  ghost function Material(b: Builder, s: set<string>, rank: string -> nat, n: string): (m: string)
    requires HasTag(b, s, rank, n)
  {
    b.dockerfiles[n] + Concat(Sort(Values(ArgsOf(b, s, rank, n)) + Extras(b, n)))
  }

  lemma TagOfMaterial(b: Builder, s: set<string>, rank: string -> nat, n: string)
    requires HasTag(b, s, rank, n)
    ensures n in b.configs && n in b.dockerfiles && None !in ArgsOf(b, s, rank, n)
    ensures Tag(b, s, rank, n).value == ImageTag(b, n, b.hash(Material(b, s, rank, n)))
  {
    hide Sort, Concat, Extras, ArgsOf, Ranked;
  }

  lemma DepTags(b: Builder, s: set<string>, rank: string -> nat, n: string, i: nat)
    requires HasTag(b, s, rank, n) && n in b.configs && i < |b.configs[n]|
    ensures None !in ArgsOf(b, s, rank, n)
    ensures var d := b.configs[n][i];
            && HasTag(b, s, rank, d.image) && rank(d.image) < rank(n)
            && Values(ArgsOf(b, s, rank, n))[i] == d.arg + "=" + Tag(b, s, rank, d.image).value
  {
    hide Tag, ArgsOf;
    TagOfMaterial(b, s, rank, n);
    ArgAt(b, s, rank, n, i);
    assert ArgsOf(b, s, rank, n)[i] in ArgsOf(b, s, rank, n);
  }

  /** No two different materials of an image collide, and hashes have one length. */
  ghost predicate Tells(b: Builder, c: Builder, s: set<string>, rank: string -> nat) {
    && (forall x, y :: |b.hash(x)| == |b.hash(y)|)
    && (forall m :: HasTag(b, s, rank, m) && HasTag(c, s, rank, m)
                    && b.hash(Material(b, s, rank, m)) == b.hash(Material(c, s, rank, m)) ==>
          Material(b, s, rank, m) == Material(c, s, rank, m))
  }

  lemma SameShape(b: Builder, c: Builder, s: set<string>, rank: string -> nat, n: string)
    requires Variants(b, c) && HasTag(b, s, rank, n) && HasTag(c, s, rank, n) && Tells(b, c, s, rank)
    ensures |Tag(b, s, rank, n).value| == |Tag(c, s, rank, n).value|
    ensures Tag(b, s, rank, n) == Tag(c, s, rank, n) ==> Material(b, s, rank, n) == Material(c, s, rank, n)
  {
    hide Tag, Material, Ranked;
    TagOfMaterial(b, s, rank, n);
    TagOfMaterial(c, s, rank, n);
    var h, h' := b.hash(Material(b, s, rank, n)), b.hash(Material(c, s, rank, n));
    var path := b.namespace + "/" + n + ":" + b.arch + "-";
    var front := if b.repo != "" then b.repo + "/" + path else path;
    assert ImageTag(b, n, h) == front + h && ImageTag(c, n, h') == front + h';
    SplitSame(front, h, front, h');
  }

  ghost function Same(e: string): (p: Pair) {
    (e, e)
  }

  /** The arguments of an image with both builders, side by side. */
  ghost function Pairs(b: Builder, c: Builder, s: set<string>, rank: string -> nat, n: string): (ps: seq<Pair>)
    requires Variants(b, c) && HasTag(b, s, rank, n) && HasTag(c, s, rank, n)
    ensures n in b.configs && |ps| == |b.configs[n]| + |Extras(b, n)|
  {
    TagOfMaterial(b, s, rank, n);
    TagOfMaterial(c, s, rank, n);
    Zip(Values(ArgsOf(b, s, rank, n)), Values(ArgsOf(c, s, rank, n))) + Map(Same, Extras(b, n))
  }

  ghost function Zip(v: seq<string>, w: seq<string>): (ps: seq<Pair>)
    requires |v| == |w|
    ensures |ps| == |v| && forall i :: 0 <= i < |v| ==> ps[i] == (v[i], w[i])
  {
    seq(|v|, i requires 0 <= i < |v| => (v[i], w[i]))
  }

  lemma ZipSides(v: seq<string>, w: seq<string>, e: seq<string>)
    requires |v| == |w|
    ensures Firsts(Zip(v, w) + Map(Same, e)) == v + e && Seconds(Zip(v, w) + Map(Same, e)) == w + e
  {
  }

  lemma PairSides(b: Builder, c: Builder, s: set<string>, rank: string -> nat, n: string)
    requires Variants(b, c) && HasTag(b, s, rank, n) && HasTag(c, s, rank, n)
    ensures Material(b, s, rank, n) == b.dockerfiles[n] + Concat(Sort(Firsts(Pairs(b, c, s, rank, n))))
    ensures Material(c, s, rank, n) == c.dockerfiles[n] + Concat(Sort(Seconds(Pairs(b, c, s, rank, n))))
  {
    hide Sort, Concat, Extras, Tag, Ranked, ArgsOf, Zip, Map, Firsts, Seconds;
    TagOfMaterial(b, s, rank, n);
    TagOfMaterial(c, s, rank, n);
    ExtrasSame(b, c, n);
    ZipSides(Values(ArgsOf(b, s, rank, n)), Values(ArgsOf(c, s, rank, n)), Extras(b, n));
  }

  lemma ExtrasSame(b: Builder, c: Builder, n: string)
    requires Variants(b, c)
    ensures Extras(b, n) == Extras(c, n)
  {
  }

  lemma NamesOfExtras(b: Builder, n: string)
    ensures |ExtraNames(b, n)| == |Extras(b, n)|
    ensures forall i :: 0 <= i < |Extras(b, n)| ==> Names(ExtraNames(b, n)[i], Same(Extras(b, n)[i]))
    ensures forall i :: 0 <= i < |Extras(b, n)| ==>
              ExtraNames(b, n)[i] in ["EXTRA_PACKAGES", "EXTRA_KEYS", "EXTRA_REPOSITORIES"]
    ensures forall i, j :: 0 <= i < j < |Extras(b, n)| ==> ExtraNames(b, n)[i] != ExtraNames(b, n)[j]
  {
    hide Join, Extra, ExtraName, Names;
    var a, k, r := "EXTRA_PACKAGES", "EXTRA_KEYS", "EXTRA_REPOSITORIES";
    assert |a| == 14 && |k| == 10 && |r| == 18;
    NamesOfThree(b, n, a, k, r);
  }

  lemma NamesOfThree(b: Builder, n: string, a: string, k: string, r: string)
    requires '=' !in a && '=' !in k && '=' !in r && a != k && a != r && k != r
    ensures var names := ExtraName(b.packages, a, n) + ExtraName(b.keys, k, n) + ExtraName(b.repositories, r, n);
            var extras := Extra(b.packages, a, n) + Extra(b.keys, k, n) + Extra(b.repositories, r, n);
            && |names| == |extras|
            && (forall i :: 0 <= i < |extras| ==> Names(names[i], Same(extras[i])) && names[i] in [a, k, r])
            && (forall i, j :: 0 <= i < j < |extras| ==> names[i] != names[j])
  {
    hide Extra, ExtraName, Names;
    NamesExtra(b.packages, a, n);
    NamesExtra(b.keys, k, n);
    NamesExtra(b.repositories, r, n);
  }

  lemma NamesExtra(m: map<string, seq<string>>, arg: string, n: string)
    requires '=' !in arg
    ensures |ExtraName(m, arg, n)| == |Extra(m, arg, n)| <= 1
    ensures |Extra(m, arg, n)| == 1 ==>
              ExtraName(m, arg, n)[0] == arg && Names(ExtraName(m, arg, n)[0], Same(Extra(m, arg, n)[0]))
  {
    hide Join;
  }

  lemma PairNamed(b: Builder, c: Builder, s: set<string>, rank: string -> nat, n: string, i: nat)
    requires Variants(b, c) && HasTag(b, s, rank, n) && HasTag(c, s, rank, n) && Tells(b, c, s, rank)
    requires n in b.configs && WellNamed(b, n) && i < |Pairs(b, c, s, rank, n)|
    ensures |ExtraNames(b, n)| == |Extras(b, n)|
    ensures var p := Pairs(b, c, s, rank, n)[i];
            |p.0| == |p.1| && Names((DepNames(b, n) + ExtraNames(b, n))[i], p)
  {
    hide Tag, Ranked, ArgsOf, Extras, ExtraNames, Material, Values;
    NamesOfExtras(b, n);
    if i < |b.configs[n]| {
      DepTags(b, s, rank, n, i);
      DepTags(c, s, rank, n, i);
      SameShape(b, c, s, rank, b.configs[n][i].image);
    }
  }

  ghost function DepNames(b: Builder, n: string): (names: seq<string>)
    requires n in b.configs
    ensures |names| == |b.configs[n]| && forall i :: 0 <= i < |names| ==> names[i] == b.configs[n][i].arg
  {
    seq(|b.configs[n]|, i requires 0 <= i < |b.configs[n]| => b.configs[n][i].arg)
  }

  lemma NamesDiffer(b: Builder, n: string)
    requires n in b.configs && WellNamed(b, n)
    ensures var names := DepNames(b, n) + ExtraNames(b, n);
            forall i, j :: 0 <= i < j < |names| ==> names[i] != names[j]
  {
    hide Extras, ExtraNames;
    NamesOfExtras(b, n);
  }

  lemma PairsNamed(b: Builder, c: Builder, s: set<string>, rank: string -> nat, n: string)
    requires Variants(b, c) && HasTag(b, s, rank, n) && HasTag(c, s, rank, n) && Tells(b, c, s, rank)
    requires n in b.configs && WellNamed(b, n)
    ensures var ps := Pairs(b, c, s, rank, n);
            && (forall p, q :: p in ps && q in ps ==> Alike2(p, q))
            && (forall p :: p in ps ==> |p.0| == |p.1|)
  {
    hide HasTag, Extras, ExtraNames, Alike2, Names, Tells, Pairs, WellNamed;
    var ps, names := Pairs(b, c, s, rank, n), DepNames(b, n) + ExtraNames(b, n);
    NamesOfExtras(b, n);
    NamesDiffer(b, n);
    forall i | 0 <= i < |ps|
      ensures Names(names[i], ps[i]) && |ps[i].0| == |ps[i].1|
    {
      PairNamed(b, c, s, rank, n, i);
    }
    AllAlike(names, ps);
  }

  /** A tag is the tag of the variant only if the Dockerfiles are the same and the tags of
      all dependencies are. */
  lemma TagsApart(b: Builder, c: Builder, s: set<string>, rank: string -> nat, n: string)
    requires Variants(b, c) && HasTag(b, s, rank, n) && HasTag(c, s, rank, n) && Tells(b, c, s, rank)
    requires n in b.configs && WellNamed(b, n) && Tag(b, s, rank, n) == Tag(c, s, rank, n)
    ensures n in b.dockerfiles && n in c.dockerfiles && b.dockerfiles[n] == c.dockerfiles[n]
    ensures forall i :: 0 <= i < |b.configs[n]| ==>
              var m := b.configs[n][i].image;
              HasTag(b, s, rank, m) && HasTag(c, s, rank, m) && Tag(b, s, rank, m) == Tag(c, s, rank, m)
  {
    hide Tag, Ranked, ArgsOf, Extras, Alike2, Material, Sort, Concat;
    TagOfMaterial(b, s, rank, n);
    TagOfMaterial(c, s, rank, n);
    SameShape(b, c, s, rank, n);
    PairSides(b, c, s, rank, n);
    PairsNamed(b, c, s, rank, n);
    var ps := Pairs(b, c, s, rank, n);
    Separates(b.dockerfiles[n], c.dockerfiles[n], ps);
    forall i | 0 <= i < |b.configs[n]|
      ensures var m := b.configs[n][i].image;
              HasTag(b, s, rank, m) && HasTag(c, s, rank, m) && Tag(b, s, rank, m) == Tag(c, s, rank, m)
    {
      DepTags(b, s, rank, n, i);
      DepTags(c, s, rank, n, i);
      assert ps[i] in ps;
      var d := b.configs[n][i];
      SplitSame(d.arg + "=", Tag(b, s, rank, d.image).value, d.arg + "=", Tag(c, s, rank, d.image).value);
    }
  }

  ghost predicate SameFile(b: Builder, c: Builder, m: string) {
    (m in b.dockerfiles <==> m in c.dockerfiles) && (m in b.dockerfiles ==> b.dockerfiles[m] == c.dockerfiles[m])
  }

  lemma {:induction false} SameTagSameFile(b: Builder, c: Builder, s: set<string>, rank: string -> nat,
                                           path: seq<string>)
    requires Variants(b, c) && Tells(b, c, s, rank) && forall m :: m in b.configs ==> WellNamed(b, m)
    requires IsPath(GraphOf(b), path) && HasTag(b, s, rank, path[0]) && HasTag(c, s, rank, path[0])
    requires Tag(b, s, rank, path[0]) == Tag(c, s, rank, path[0])
    ensures SameFile(b, c, path[|path| - 1])
    decreases |path|
  {
    hide Tag, Ranked, WellNamed, Material, Tells;
    var n := path[0];
    TagOfMaterial(b, s, rank, n);
    TagsApart(b, c, s, rank, n);
    if |path| > 1 {
      assert path[1] in Deps(GraphOf(b), path[0]);
      var i :| 0 <= i < |b.configs[n]| && b.configs[n][i].image == path[1];
      SameTagSameFile(b, c, s, rank, path[1..]);
    }
  }

  lemma SameFilesSameTag(b: Builder, c: Builder, s: set<string>, rank: string -> nat, n: string)
    requires Variants(b, c) && Ranked(b, s, rank) && Ranked(c, s, rank) && n in s
    requires forall m :: Reachable(GraphOf(b), {n}, m) ==> SameFile(b, c, m)
    ensures Tag(b, s, rank, n) == Tag(c, s, rank, n)
  {
    hide Tag;
    var t := set m | m in s && Reachable(GraphOf(b), {n}, m);
    TargetReachable(GraphOf(b), {n}, n);
    forall m, d | m in t && m in b.configs && d in b.configs[m]
      ensures d.image in t
    {
      assert d.image in Deps(GraphOf(b), m);
      DepReachable(GraphOf(b), {n}, m, d.image);
    }
    forall m
      ensures Extras(b, m) == Extras(c, m)
    {
      ExtrasSame(b, c, m);
    }
    TagsAlike(b, s, rank, c, s, rank, t, n);
  }

  /** Content addressing: for builders that differ in their Dockerfiles at most, with named
      arguments and a hash that does not collide, the tag of an image is the same if and only
      if the Dockerfiles of the image and of all it depends on, directly or not, are. */
  lemma {:induction false} ContentAddressed(b: Builder, c: Builder, s: set<string>, rank: string -> nat, n: string)
    requires Variants(b, c) && Tells(b, c, s, rank) && (forall m :: m in b.configs ==> WellNamed(b, m))
    requires HasTag(b, s, rank, n) && HasTag(c, s, rank, n)
    ensures Tag(b, s, rank, n) == Tag(c, s, rank, n) <==>
            forall m :: Reachable(GraphOf(b), {n}, m) ==> SameFile(b, c, m)
  {
    hide Tag, WellNamed, Material, Tells, SameFile;
    if Tag(b, s, rank, n) == Tag(c, s, rank, n) {
      forall m | Reachable(GraphOf(b), {n}, m)
        ensures SameFile(b, c, m)
      {
        var path :| Leads(GraphOf(b), {n}, path, m);
        SameTagSameFile(b, c, s, rank, path);
      }
    }
    if forall m :: Reachable(GraphOf(b), {n}, m) ==> SameFile(b, c, m) {
      SameFilesSameTag(b, c, s, rank, n);
    }
  }

  // ---------------------------------------------------------------- tags and lists of extras

  /** Cuts a string at each space. */
  function Split(s: string): (items: seq<string>)
    ensures items != []
  {
    if s == "" then [""]
    else
      var rest := Split(s[1..]);
      if s[0] == ' ' then [""] + rest else [[s[0]] + rest[0]] + rest[1..]
  }

  lemma {:induction false} SplitOne(a: string)
    requires ' ' !in a
    ensures Split(a) == [a]
  {
    if a != "" {
      SplitOne(a[1..]);
      assert [a[0]] + a[1..] == a;
    }
  }

  lemma {:induction false} SplitMore(a: string, s: string)
    requires ' ' !in a
    ensures Split(a + " " + s) == [a] + Split(s)
  {
    var t := a + " " + s;
    if a == "" {
      assert t[1..] == s;
    } else {
      SplitMore(a[1..], s);
      assert t[1..] == a[1..] + " " + s;
      assert [a[0]] + a[1..] == a;
    }
  }

  ghost predicate NoSpaces(items: seq<string>) {
    forall i :: 0 <= i < |items| ==> ' ' !in items[i]
  }

  /** What was joined can be split again. */
  lemma {:induction false} SplitJoin(items: seq<string>)
    requires items != [] && NoSpaces(items)
    ensures Split(Join(items)) == items
  {
    hide Split;
    if |items| == 1 {
      SplitOne(items[0]);
    } else {
      SplitJoin(items[1..]);
      SplitMore(items[0], Join(items[1..]));
    }
  }

  /** The three lists of extra build arguments. */
  datatype Which = Packages | Keys | Repositories

  function ListOf(b: Builder, w: Which): (m: map<string, seq<string>>) {
    match w
    case Packages => b.packages
    case Keys => b.keys
    case Repositories => b.repositories
  }

  function ArgOf(w: Which): (arg: string) {
    match w
    case Packages => "EXTRA_PACKAGES"
    case Keys => "EXTRA_KEYS"
    case Repositories => "EXTRA_REPOSITORIES"
  }

  function Items(m: map<string, seq<string>>, n: string): (items: seq<string>) {
    if n in m then m[n] else []
  }

  /** An argument tells exactly what is in its list. */
  lemma ExtraShows(m: map<string, seq<string>>, m': map<string, seq<string>>, arg: string, n: string)
    requires NoSpaces(Items(m, n)) && NoSpaces(Items(m', n))
    ensures Extra(m, arg, n) == Extra(m', arg, n) <==> Items(m, n) == Items(m', n)
    ensures |Extra(m, arg, n)| == if Items(m, n) == [] then 0 else 1
  {
    hide Join;
    var s, t := Items(m, n), Items(m', n);
    if s != [] && t != [] {
      SplitJoin(s);
      SplitJoin(t);
      SplitSame(arg + "=", Join(s), arg + "=", Join(t));
      assert Extra(m, arg, n)[0] == arg + "=" + Join(s) && Extra(m', arg, n)[0] == arg + "=" + Join(t);
    }
  }

  lemma {:induction false} InsertLength(p: string, t: seq<string>)
    ensures |Concat(Insert(p, t))| == |p| + |Concat(t)|
  {
    hide Leq;
    if t != [] && !Leq(p, t[0]) {
      InsertLength(p, t[1..]);
      assert ([t[0]] + Insert(p, t[1..]))[1..] == Insert(p, t[1..]);
    } else {
      assert ([p] + t)[1..] == t;
    }
  }

  /** Inserted at the same place, different strings show. */
  lemma {:induction false} InsertShows(p: string, p': string, t: seq<string>)
    requires forall q :: q in t ==> Alike2((p, p'), (q, q))
    ensures Concat(Insert(p, t)) == Concat(Insert(p', t)) <==> p == p'
  {
    hide Leq;
    if t == [] || Leq(p, t[0]) {
      assert t != [] ==> Alike2((p, p'), (t[0], t[0]));
      assert ([p] + t)[1..] == t && ([p'] + t)[1..] == t;
      SplitSame(p, Concat(t), p', Concat(t));
    } else {
      assert Alike2((p, p'), (t[0], t[0]));
      InsertShows(p, p', t[1..]);
      var u, u' := Insert(p, t[1..]), Insert(p', t[1..]);
      assert ([t[0]] + u)[1..] == u && ([t[0]] + u')[1..] == u';
      SplitSame(t[0], Concat(u), t[0], Concat(u'));
    }
  }

  /** An argument of another name. */
  ghost predicate Named(q: string, n: string) {
    '=' !in n && n + "=" <= q
  }

  ghost predicate Elsewhere(q: string, name: string) {
    exists n :: n != name && Named(q, n)
  }

  lemma SortLast(others: seq<string>, p: string)
    ensures Sort(others + [p]) == Insert(p, Sort(others))
    ensures forall q :: q in Sort(others) <==> q in others
  {
    hide Insert, Leq;
    SortBag(others + [p], [p] + others);
    assert ([p] + others)[1..] == others;
    SortSorts(others);
    forall q
      ensures q in Sort(others) <==> q in others
    {
      BagMember(Sort(others), q);
      BagMember(others, q);
    }
  }

  /** One argument among others shows, and whether it is there at all. */
  lemma ArgShows(others: seq<string>, e: seq<string>, e': seq<string>, name: string)
    requires |e| <= 1 && |e'| <= 1 && forall q :: q in others ==> Elsewhere(q, name)
    requires (forall p :: p in e ==> Named(p, name)) && (forall p :: p in e' ==> Named(p, name))
    ensures Concat(Sort(others + e)) == Concat(Sort(others + e')) <==> e == e'
  {
    hide Concat, Sort, Insert, Leq, Alike2, Elsewhere, Named;
    var t := Sort(others);
    assert others + [] == others;
    if e != [] {
      ArgInserted(others, e, name);
    }
    if e' != [] {
      ArgInserted(others, e', name);
    }
    if e != [] && e' != [] {
      SortLast(others, e[0]);
      forall q | q in t
        ensures Alike2((e[0], e'[0]), (q, q))
      {
        ElsewhereAlike(e[0], e'[0], name, q);
      }
      InsertShows(e[0], e'[0], t);
    }
  }

  lemma ArgInserted(others: seq<string>, e: seq<string>, name: string)
    requires |e| == 1 && Named(e[0], name)
    ensures e == [e[0]] && Sort(others + e) == Insert(e[0], Sort(others))
    ensures |Concat(Sort(others + e))| > |Concat(Sort(others))|
  {
    hide Concat, Sort, Insert, Leq;
    assert e == [e[0]];
    SortLast(others, e[0]);
    InsertLength(e[0], Sort(others));
  }

  lemma ElsewhereAlike(p: string, p': string, name: string, q: string)
    requires Named(p, name) && Named(p', name) && Elsewhere(q, name)
    ensures Alike2((p, p'), (q, q))
  {
    var n :| n != name && Named(q, n);
    NamedAlike(name, n, (p, p'), (q, q));
  }

  /** The other two lists. */
  ghost function Others(b: Builder, w: Which, n: string): (s: seq<string>) {
    match w
    case Packages => Extra(b.keys, "EXTRA_KEYS", n) + Extra(b.repositories, "EXTRA_REPOSITORIES", n)
    case Keys => Extra(b.packages, "EXTRA_PACKAGES", n) + Extra(b.repositories, "EXTRA_REPOSITORIES", n)
    case Repositories => Extra(b.packages, "EXTRA_PACKAGES", n) + Extra(b.keys, "EXTRA_KEYS", n)
  }

  lemma ExtrasBag(b: Builder, w: Which, n: string, v: seq<string>)
    ensures Sort(v + Extras(b, n)) == Sort(v + Others(b, w, n) + Extra(ListOf(b, w), ArgOf(w), n))
  {
    hide Sort, Extra;
    SortBag(v + Extras(b, n), v + Others(b, w, n) + Extra(ListOf(b, w), ArgOf(w), n));
  }

  /** Two builders that differ in one list of one image at most. */
  ghost predicate DifferInList(b: Builder, c: Builder, w: Which, n: string) {
    && (match w
        case Packages => c == b.(packages := c.packages)
        case Keys => c == b.(keys := c.keys)
        case Repositories => c == b.(repositories := c.repositories))
    && forall m :: m != n ==> Items(ListOf(c, w), m) == Items(ListOf(b, w), m)
  }

  lemma ExtrasElsewhere(b: Builder, c: Builder, w: Which, n: string, m: string)
    requires DifferInList(b, c, w, n) && m != n
    ensures Extras(b, m) == Extras(c, m)
  {
    hide Join;
    assert Items(ListOf(c, w), m) == Items(ListOf(b, w), m);
  }

  lemma OthersSame(b: Builder, c: Builder, w: Which, n: string)
    requires DifferInList(b, c, w, n)
    ensures Others(b, w, n) == Others(c, w, n)
  {
  }

  /** The dependencies of the image have the same tags. */
  lemma DepsSame(b: Builder, c: Builder, w: Which, s: set<string>, rank: string -> nat, n: string, m: string)
    requires DifferInList(b, c, w, n) && Ranked(b, s, rank) && n in s && m in s && rank(m) < rank(n)
    ensures Ranked(c, s, rank) && Tag(b, s, rank, m) == Tag(c, s, rank, m)
  {
    hide Tag, Extras;
    var t := set x | x in s && rank(x) < rank(n);
    forall x | x in t
      ensures Extras(b, x) == Extras(c, x)
    {
      ExtrasElsewhere(b, c, w, n, x);
    }
    TagsAlike(b, s, rank, c, s, rank, t, m);
  }

  lemma ValuesSame(b: Builder, c: Builder, w: Which, s: set<string>, rank: string -> nat, n: string)
    requires DifferInList(b, c, w, n) && HasTag(b, s, rank, n) && HasTag(c, s, rank, n)
    ensures n in b.configs && None !in ArgsOf(b, s, rank, n) && None !in ArgsOf(c, s, rank, n)
    ensures Values(ArgsOf(b, s, rank, n)) == Values(ArgsOf(c, s, rank, n))
  {
    hide Tag, ArgsOf, Ranked, DifferInList;
    TagOfMaterial(b, s, rank, n);
    TagOfMaterial(c, s, rank, n);
    SameConfig(b, c, w, n);
    var v, v' := Values(ArgsOf(b, s, rank, n)), Values(ArgsOf(c, s, rank, n));
    forall i | 0 <= i < |v|
      ensures v[i] == v'[i]
    {
      DepTags(b, s, rank, n, i);
      DepTags(c, s, rank, n, i);
      DepsSame(b, c, w, s, rank, n, b.configs[n][i].image);
    }
  }

  lemma SameConfig(b: Builder, c: Builder, w: Which, n: string)
    requires DifferInList(b, c, w, n)
    ensures b.configs == c.configs && b.dockerfiles == c.dockerfiles && b.hash == c.hash
    ensures forall sha: string :: ImageTag(b, n, sha) == ImageTag(c, n, sha)
  {
  }

  lemma OthersNamed(b: Builder, w: Which, s: set<string>, rank: string -> nat, n: string)
    requires HasTag(b, s, rank, n) && n in b.configs && WellNamed(b, n) && None !in ArgsOf(b, s, rank, n)
    ensures forall q :: q in Values(ArgsOf(b, s, rank, n)) + Others(b, w, n) ==> Elsewhere(q, ArgOf(w))
  {
    hide Tag, ArgsOf, Ranked, Others;
    var v := Values(ArgsOf(b, s, rank, n));
    forall i | 0 <= i < |v|
      ensures Elsewhere(v[i], ArgOf(w))
    {
      DepTags(b, s, rank, n, i);
      assert Named(v[i], b.configs[n][i].arg);
    }
    ExtrasNamed(b, w, n);
  }

  lemma ExtrasNamed(b: Builder, w: Which, n: string)
    ensures forall q :: q in Others(b, w, n) ==> Elsewhere(q, ArgOf(w))
    ensures '=' !in ArgOf(w) && forall q :: q in Extra(ListOf(b, w), ArgOf(w), n) ==> Named(q, ArgOf(w))
  {
    hide Join;
    var a, k, r := "EXTRA_PACKAGES", "EXTRA_KEYS", "EXTRA_REPOSITORIES";
    assert |a| == 14 && |k| == 10 && |r| == 18;
    ExtraNamed(b.packages, a, n);
    ExtraNamed(b.keys, k, n);
    ExtraNamed(b.repositories, r, n);
  }

  lemma ExtraNamed(m: map<string, seq<string>>, arg: string, n: string)
    requires '=' !in arg
    ensures forall q :: q in Extra(m, arg, n) ==> Named(q, arg)
  {
    hide Join;
  }

  /** For builders that differ in the packages, the keys or the repositories of one image at
      most, with named arguments, items without spaces, and a hash that does not collide: the
      image has the same tag if and only if the lists are the same. */
  lemma {:induction false} ListsShow(b: Builder, c: Builder, w: Which, s: set<string>, rank: string -> nat, n: string)
    requires DifferInList(b, c, w, n) && HasTag(b, s, rank, n) && HasTag(c, s, rank, n)
    requires n in b.configs && WellNamed(b, n)
    requires NoSpaces(Items(ListOf(b, w), n)) && NoSpaces(Items(ListOf(c, w), n))
    requires b.hash(Material(b, s, rank, n)) == b.hash(Material(c, s, rank, n)) ==>
               Material(b, s, rank, n) == Material(c, s, rank, n)
    ensures Tag(b, s, rank, n) == Tag(c, s, rank, n) <==> Items(ListOf(b, w), n) == Items(ListOf(c, w), n)
  {
    hide Tag, ArgsOf, Ranked, DifferInList, Sort, Concat, Extras, Others, Extra, Elsewhere, Named, WellNamed,
         ImageTag, Items;
    TagOfMaterial(b, s, rank, n);
    TagOfMaterial(c, s, rank, n);
    SameConfig(b, c, w, n);
    ValuesSame(b, c, w, s, rank, n);
    OthersSame(b, c, w, n);
    OthersNamed(b, w, s, rank, n);
    ExtrasNamed(b, w, n);
    ExtrasNamed(c, w, n);
    var v := Values(ArgsOf(b, s, rank, n));
    var e, e' := Extra(ListOf(b, w), ArgOf(w), n), Extra(ListOf(c, w), ArgOf(w), n);
    ExtrasBag(b, w, n, v);
    ExtrasBag(c, w, n, v);
    ExtraShows(ListOf(b, w), ListOf(c, w), ArgOf(w), n);
    ExtraShows(ListOf(c, w), ListOf(b, w), ArgOf(w), n);
    ArgShows(v + Others(b, w, n), e, e', ArgOf(w));
    var x, x' := Concat(Sort(v + Others(b, w, n) + e)), Concat(Sort(v + Others(b, w, n) + e'));
    SplitSame(b.dockerfiles[n], x, b.dockerfiles[n], x');
    ShaShows(b, n, b.hash(Material(b, s, rank, n)), b.hash(Material(c, s, rank, n)));
  }

  lemma ShaShows(b: Builder, n: string, h: string, h': string)
    ensures ImageTag(b, n, h) == ImageTag(b, n, h') <==> h == h'
  {
    var path := b.namespace + "/" + n + ":" + b.arch + "-";
    var front := if b.repo != "" then b.repo + "/" + path else path;
    assert ImageTag(b, n, h) == front + h && ImageTag(b, n, h') == front + h';
    SplitSame(front, h, front, h');
  }

  // ---------------------------------------------------------------- when there is a tag

  ghost predicate Missing(b: Builder, m: string) {
    m !in b.configs || m !in b.dockerfiles
  }

  /** An image has no tag exactly when it, or something it depends on, directly or not, is
      unknown or has no Dockerfile. */
  lemma {:induction false} NoTagExactly(b: Builder, s: set<string>, rank: string -> nat, n: string)
    requires Ranked(b, s, rank) && n in s
    ensures Tag(b, s, rank, n) == None <==> exists m :: Reachable(GraphOf(b), {n}, m) && Missing(b, m)
    decreases rank(n)
  {
    hide ArgsOf, Reachable, Assemble;
    var g := GraphOf(b);
    TargetReachable(g, {n}, n);
    if !Missing(b, n) {
      var deps, args := b.configs[n], ArgsOf(b, s, rank, n);
      forall i | 0 <= i < |deps|
        ensures args[i] == None <==> exists m :: Reachable(g, {deps[i].image}, m) && Missing(b, m)
        ensures forall m :: Reachable(g, {deps[i].image}, m) ==> Reachable(g, {n}, m)
      {
        ArgAt(b, s, rank, n, i);
        NoTagExactly(b, s, rank, deps[i].image);
        assert deps[i].image in Deps(g, n);
        FromDep(g, n, deps[i].image);
      }
      forall m | Reachable(g, {n}, m) && m != n
        ensures exists i :: 0 <= i < |deps| && Reachable(g, {deps[i].image}, m)
      {
        var d := ThroughDep(g, n, m);
        var i :| 0 <= i < |deps| && deps[i].image == d;
      }
      NoneAssembled(b, n, args);
    }
  }

  lemma NoneAssembled(b: Builder, n: string, args: seq<Option<string>>)
    requires n in b.dockerfiles
    ensures Assemble(b, n, args) == None <==> exists i :: 0 <= i < |args| && args[i] == None
  {
    hide Sort, Concat, Extras;
    assert forall i :: 0 <= i < |args| ==> args[i] in args;
  }

  lemma FromDep(g: Graph, n: string, d: string)
    requires d in Deps(g, n)
    ensures forall m :: Reachable(g, {d}, m) ==> Reachable(g, {n}, m)
  {
    forall m | Reachable(g, {d}, m)
      ensures Reachable(g, {n}, m)
    {
      var path :| Leads(g, {d}, path, m);
      assert Leads(g, {n}, [n] + path, m);
    }
  }

  lemma ThroughDep(g: Graph, n: string, m: string) returns (d: string)
    requires Reachable(g, {n}, m) && m != n
    ensures d in Deps(g, n) && Reachable(g, {d}, m)
  {
    var path :| Leads(g, {n}, path, m);
    d := path[1];
    assert d in Deps(g, path[0]);
    assert Leads(g, {d}, path[1..], m);
  }

  // ---------------------------------------------------------------- the parts of a tag

  /** Every part of a tag shows: tags that differ in one part only are different. */
  lemma PartsShow(b: Builder, n: string, sha: string, x: string)
    ensures ImageTag(b.(repo := x), n, sha) == ImageTag(b, n, sha) <==> x == b.repo
    ensures ImageTag(b.(namespace := x), n, sha) == ImageTag(b, n, sha) <==> x == b.namespace
    ensures ImageTag(b.(arch := x), n, sha) == ImageTag(b, n, sha) <==> x == b.arch
    ensures ImageTag(b, x, sha) == ImageTag(b, n, sha) <==> x == n
    ensures ImageTag(b, n, x) == ImageTag(b, n, sha) <==> x == sha
  {
    var front := if b.repo != "" then b.repo + "/" else "";
    TagFrom(b, n, sha);
    TagFrom(b.(repo := x), n, sha);
    TagFrom(b.(namespace := x), n, sha);
    TagFrom(b.(arch := x), n, sha);
    TagFrom(b, x, sha);
    var tail := "/" + n + ":" + b.arch + "-" + sha;
    RepoShows(b.repo, x, b.namespace + tail);
    MiddleShows(front, b.namespace, x, tail);
    MiddleShows(front + b.namespace + "/" + n + ":", b.arch, x, "-" + sha);
    MiddleShows(front + b.namespace + "/", n, x, ":" + b.arch + "-" + sha);
    ShaShows(b, n, x, sha);
  }

  function Front(repo: string): (s: string) {
    if repo != "" then repo + "/" else ""
  }

  lemma TagFrom(b: Builder, n: string, sha: string)
    ensures ImageTag(b, n, sha) == Front(b.repo) + b.namespace + ("/" + n + ":" + b.arch + "-" + sha)
    ensures ImageTag(b, n, sha) == Front(b.repo) + (b.namespace + ("/" + n + ":" + b.arch + "-" + sha))
    ensures ImageTag(b, n, sha) == (Front(b.repo) + b.namespace + "/" + n + ":") + b.arch + ("-" + sha)
    ensures ImageTag(b, n, sha) == (Front(b.repo) + b.namespace + "/") + n + (":" + b.arch + "-" + sha)
  {
  }

  lemma RepoShows(r: string, x: string, tail: string)
    ensures Front(r) + tail == Front(x) + tail <==> r == x
  {
    SplitSame(Front(r), tail, Front(x), tail);
    SplitSame(r, "/", x, "/");
  }

  lemma MiddleShows(a: string, m: string, x: string, z: string)
    ensures a + m + z == a + x + z <==> m == x
  {
    SplitSame(a + m, z, a + x, z);
    SplitSame(a, m, a, x);
  }
}
