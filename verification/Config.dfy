/** The configuration tree: dotted paths, defaults and the merging of a loaded file. */
module Config {
  import opened Json
  import opened Options

  /** A JSON value as the configuration sees it: an object, or anything else. */
  datatype Tree = Leaf(value: Json) | Node(fields: map<string, Tree>)

  const EMPTY := Node(map[])

  // ----- Paths -----

  /** split_path: the parts between dots, empty ones left out; `part` is the one being read. */
  function SplitFrom(path: string, part: string): seq<string>
    decreases |path|
  {
    var whole := if part == "" then [] else [part];
    if |path| == 0 then whole
    else if path[0] == '.' then whole + SplitFrom(path[1..], "")
    else SplitFrom(path[1..], part + [path[0]])
  }

  function Split(path: string): seq<string> {
    SplitFrom(path, "")
  }

  // ----- Reading and writing -----

  predicate HasKey(t: Tree, k: string) {
    t.Node? && k in t.fields
  }

  /** Get, for a path already split: nothing for the empty path. */
  function Find(t: Tree, p: seq<string>): Option<Tree>
    decreases |p|
  {
    if |p| == 0 then Some(t)
    else if !HasKey(t, p[0]) then None
    else Find(t.fields[p[0]], p[1..])
  }

  function Get(t: Tree, p: seq<string>): Option<Tree> {
    if |p| == 0 then None else Find(t, p)
  }

  predicate Has(t: Tree, p: seq<string>) {
    Get(t, p).Some?
  }

  function Fields(t: Tree): map<string, Tree> {
    if t.Node? then t.fields else map[]
  }

  function Child(t: Tree, k: string): Tree {
    if HasKey(t, k) then t.fields[k] else EMPTY
  }

  /** The walk of Set: what is not an object on the way is replaced by one. */
  function Put(t: Tree, p: seq<string>, v: Tree): Tree
    decreases |p|
  {
    if |p| == 0 then v else Node(Fields(t)[p[0] := Put(Child(t, p[0]), p[1..], v)])
  }

  function Set(t: Tree, p: seq<string>, v: Tree): Tree {
    if |p| == 0 then t else Put(t, p, v)
  }

  /** An assignment through a pointer at the value under p. */
  function Written(t: Tree, p: seq<string>, x: Tree): Tree
    requires Find(t, p).Some?
    decreases |p|
  {
    if |p| == 0 then x else Node(t.fields[p[0] := Written(t.fields[p[0]], p[1..], x)])
  }

  /** It changes nothing for Put if Put makes the same of the old value and the new one. */
  lemma {:induction false} WrittenPut(t: Tree, p: seq<string>, k: nat, x: Tree, v: Tree)
    requires k <= |p| && Find(t, p[..k]).Some? && Put(x, p[k..], v) == Put(Find(t, p[..k]).value, p[k..], v)
    ensures var u := Written(t, p[..k], x); Find(u, p[..k]) == Some(x) && Put(u, p, v) == Put(t, p, v)
    decreases k
  {
    if k == 0 {
      assert p[0..] == p;
    } else {
      assert p[..k][1..] == p[1..][..k - 1] && p[k..] == p[1..][k - 1..];
      WrittenPut(t.fields[p[0]], p[1..], k - 1, x, v);
      var u := Written(t, p[..k], x);
      var child := Put(t.fields[p[0]], p[1..], v);
      assert u.fields[p[0] := child] == t.fields[p[0] := child];
    }
  }

  lemma NewObject(t: Tree, p: seq<string>, v: Tree)
    requires |p| > 0 && !t.Node?
    ensures Put(EMPTY, p, v) == Put(t, p, v)
  {
  }

  lemma NewChild(t: Tree, p: seq<string>, v: Tree)
    requires |p| > 0 && t.Node? && p[0] !in t.fields
    ensures Put(Node(t.fields[p[0] := EMPTY]), p, v) == Put(t, p, v)
  {
    var child := Put(EMPTY, p[1..], v);
    assert t.fields[p[0] := EMPTY][p[0] := child] == t.fields[p[0] := child];
  }

  lemma FindHere(t: Tree, p: seq<string>)
    ensures Find(t, p[..0]) == Some(t)
  {
  }

  lemma {:induction false} FindNext(t: Tree, p: seq<string>, i: nat)
    requires i < |p| && Find(t, p[..i]).Some? && HasKey(Find(t, p[..i]).value, p[i])
    ensures Find(t, p[..i + 1]) == Some(Find(t, p[..i]).value.fields[p[i]])
    decreases i
  {
    assert p[..i + 1][1..] == p[1..][..i];
    if i > 0 {
      assert p[..i][1..] == p[1..][..i - 1];
      FindNext(t.fields[p[0]], p[1..], i - 1);
    }
  }

  /** The last step of Set. */
  lemma {:induction false} WriteLast(t: Tree, p: seq<string>, v: Tree)
    requires |p| > 0 && Find(t, p[..|p| - 1]).Some? && Find(t, p[..|p| - 1]).value.Node?
    ensures Written(t, p[..|p| - 1], Node(Find(t, p[..|p| - 1]).value.fields[p[|p| - 1] := v])) == Put(t, p, v)
    decreases |p|
  {
    if |p| > 1 {
      assert p[..|p| - 1][1..] == p[1..][..|p| - 2];
      WriteLast(t.fields[p[0]], p[1..], v);
    }
  }

  // ----- Merging -----

  /** merge_objects: the overlay wins, except that objects are merged key by key. */
  function Merge(base: Tree, overlay: Tree): Tree
    decreases overlay
  {
    if !base.Node? || !overlay.Node? then overlay
    else Node(map k | k in base.fields.Keys + overlay.fields.Keys ::
      if k !in overlay.fields then base.fields[k]
      else if HasKey(base, k) then Merge(base.fields[k], overlay.fields[k])
      else overlay.fields[k])
  }

  // ----- Laws of Get and Set -----

  predicate Prefix(p: seq<string>, q: seq<string>) {
    p <= q
  }

  /** A value put at a path is read back there, and its parts below it. */
  lemma {:induction false} FindPut(t: Tree, p: seq<string>, v: Tree, below: seq<string>)
    ensures Find(Put(t, p, v), p + below) == Find(v, below)
    decreases |p|
  {
    if |p| == 0 {
      assert p + below == below;
    } else {
      assert (p + below)[1..] == p[1..] + below;
      FindPut(Child(t, p[0]), p[1..], v, below);
    }
  }

  /** Paths that part from p are not touched. */
  lemma {:induction false} FindOther(t: Tree, p: seq<string>, v: Tree, q: seq<string>)
    requires !Prefix(p, q) && !Prefix(q, p)
    ensures Find(Put(t, p, v), q) == Find(t, q)
    decreases |p|
  {
    if p[0] == q[0] {
      assert p == [p[0]] + p[1..] && q == [q[0]] + q[1..];
      FindOther(Child(t, p[0]), p[1..], v, q[1..]);
    }
  }

  /** What Get reads after Set: the value at the path and below it, what was there before on paths
      that part from it, and an object on the way to it. */
  lemma GetAfterSet(t: Tree, p: seq<string>, v: Tree, q: seq<string>)
    requires |p| > 0 && |q| > 0
    ensures Prefix(p, q) ==> Get(Set(t, p, v), q) == Find(v, q[|p|..])
    ensures !Prefix(p, q) && !Prefix(q, p) ==> Get(Set(t, p, v), q) == Get(t, q)
    ensures Prefix(q, p) && q != p ==> Get(Set(t, p, v), q).Some? && Get(Set(t, p, v), q).value.Node?
  {
    if Prefix(p, q) {
      assert q == p + q[|p|..];
      FindPut(t, p, v, q[|p|..]);
    } else if Prefix(q, p) {
      assert p == q + p[|q|..];
      FindAbove(t, q, p[|q|..], v);
    } else {
      FindOther(t, p, v, q);
    }
  }

  lemma {:induction false} FindAbove(t: Tree, q: seq<string>, r: seq<string>, v: Tree)
    requires |r| > 0
    ensures Find(Put(t, q + r, v), q).Some? && Find(Put(t, q + r, v), q).value.Node?
    decreases |q|
  {
    if |q| == 0 {
      assert q + r == r;
    } else {
      assert (q + r)[0] == q[0] && (q + r)[1..] == q[1..] + r;
      FindAbove(Child(t, q[0]), q[1..], r, v);
    }
  }

  /** A path that could be read can still be read after setting one that could not. */
  lemma {:induction false} FindStays(t: Tree, p: seq<string>, v: Tree, q: seq<string>)
    requires Find(t, q).Some? && Find(t, p).None?
    ensures Find(Put(t, p, v), q).Some?
    decreases |q|
  {
    if |q| > 0 && p[0] == q[0] { FindStays(t.fields[q[0]], p[1..], v, q[1..]); }
  }

  // ----- Laws of merging -----

  lemma MergeStep(base: Tree, overlay: Tree, k: string)
    requires base.Node? && overlay.Node?
    ensures HasKey(Merge(base, overlay), k) <==> k in base.fields || k in overlay.fields
    ensures k in overlay.fields ==>
              Merge(base, overlay).fields[k] == if k in base.fields then Merge(base.fields[k], overlay.fields[k]) else overlay.fields[k]
    ensures k in base.fields && k !in overlay.fields ==> Merge(base, overlay).fields[k] == base.fields[k]
  {
  }

  /** Merging the same overlay again changes nothing. */
  lemma {:induction false} MergeAbsorbs(base: Tree, overlay: Tree)
    ensures Merge(Merge(base, overlay), overlay) == Merge(base, overlay)
    ensures Merge(overlay, overlay) == overlay
    decreases overlay
  {
    if overlay.Node? {
      var self := Merge(overlay, overlay);
      forall k | k in overlay.fields ensures self.fields[k] == overlay.fields[k] {
        MergeAbsorbs(overlay.fields[k], overlay.fields[k]);
      }
      assert self.fields == overlay.fields;
      if base.Node? {
        var once := Merge(base, overlay);
        var twice := Merge(once, overlay);
        forall k | k in once.fields ensures twice.fields[k] == once.fields[k] {
          if k in overlay.fields { MergeAbsorbs(if k in base.fields then base.fields[k] else overlay.fields[k], overlay.fields[k]); }
        }
        assert twice.fields == once.fields;
      }
    }
  }

  /** The overlay has something that is no object on the way to p. */
  predicate Blocked(overlay: Tree, p: seq<string>)
    decreases |p|
  {
    |p| >= 2 && HasKey(overlay, p[0]) && (overlay.fields[p[0]].Leaf? || Blocked(overlay.fields[p[0]], p[1..]))
  }

  /** What is read at any path after a merge: the overlay's value there, merged over the base's; or
      nothing, if the overlay is in the way; or else the base's. */
  lemma {:induction false} FindMerged(base: Tree, overlay: Tree, p: seq<string>)
    requires base.Node? && overlay.Node?
    ensures Find(Merge(base, overlay), p) ==
            if Find(overlay, p).Some? then
              Some(if Find(base, p).Some? then Merge(Find(base, p).value, Find(overlay, p).value) else Find(overlay, p).value)
            else if Blocked(overlay, p) then None
            else Find(base, p)
    decreases |p|
  {
    hide Merge;
    if |p| > 0 {
      MergeStep(base, overlay, p[0]);
      if HasKey(overlay, p[0]) && HasKey(base, p[0]) {
        var b, o := base.fields[p[0]], overlay.fields[p[0]];
        if b.Node? && o.Node? { FindMerged(b, o, p[1..]); } else { MergeTop(b, o); }
      }
    }
  }

  lemma MergeTop(base: Tree, overlay: Tree)
    requires !base.Node? || !overlay.Node?
    ensures Merge(base, overlay) == overlay
  {
  }

  // ----- Loading -----

  /** Define: a name, split into its path, and its default. */
  datatype Opt = Opt(name: string, default: Tree, required: bool)

  /** apply_defaults, for the options in the order of their names. */
  function WithDefaults(t: Tree, options: seq<Opt>): Tree
    decreases |options|
  {
    if |options| == 0 then t
    else
      var o := options[0];
      WithDefaults(if !o.required && !Has(t, Split(o.name)) then Set(t, Split(o.name), o.default) else t, options[1..])
  }

  /** ParseJson. */
  function Load(t: Tree, options: seq<Opt>, json: Tree): Tree {
    var d := WithDefaults(t, options);
    if json.Node? then Merge(d, json) else d
  }

  /** An option whose default is set if need be: its name is a path. */
  predicate Settable(o: Opt) {
    !o.required && |Split(o.name)| > 0
  }

  lemma {:induction false} DefaultsKeep(t: Tree, options: seq<Opt>, p: seq<string>)
    requires Has(t, p)
    ensures Has(WithDefaults(t, options), p)
    decreases |options|
  {
    if |options| > 0 {
      var o := options[0];
      if !o.required && !Has(t, Split(o.name)) {
        if |Split(o.name)| > 0 { FindStays(t, Split(o.name), o.default, p); }
        DefaultsKeep(Set(t, Split(o.name), o.default), options[1..], p);
      } else {
        DefaultsKeep(t, options[1..], p);
      }
    }
  }

  /** Afterwards every option with a default has a value. */
  lemma {:induction false} DefaultsPresent(t: Tree, options: seq<Opt>, i: nat)
    requires i < |options| && Settable(options[i])
    ensures Has(WithDefaults(t, options), Split(options[i].name))
    decreases |options|
  {
    var o := options[0];
    var p := Split(o.name);
    var t1 := if !o.required && !Has(t, p) then Set(t, p, o.default) else t;
    if i == 0 {
      if !Has(t, p) {
        FindPut(t, p, o.default, []);
        assert p + [] == p;
      }
      DefaultsKeep(t1, options[1..], p);
    } else {
      DefaultsPresent(t1, options[1..], i - 1);
    }
  }

  lemma {:induction false} NothingToSet(t: Tree, options: seq<Opt>)
    requires forall i :: 0 <= i < |options| && Settable(options[i]) ==> Has(t, Split(options[i].name))
    ensures WithDefaults(t, options) == t
    decreases |options|
  {
    if |options| > 0 {
      assert Settable(options[0]) ==> Has(t, Split(options[0].name));
      NothingToSet(t, options[1..]);
    }
  }

  /** z differs from y only where the overlay has something that is no object. */
  ghost predicate AgreeOutside(z: Tree, y: Tree, overlay: Tree)
    decreases overlay
  {
    overlay.Node? ==>
      && z.Node? && y.Node?
      && (forall k :: k !in overlay.fields ==> (k in z.fields <==> k in y.fields))
      && (forall k :: k in z.fields && k in y.fields && k !in overlay.fields ==> z.fields[k] == y.fields[k])
      && (forall k :: k in overlay.fields && overlay.fields[k].Node? ==>
           k in z.fields && k in y.fields && AgreeOutside(z.fields[k], y.fields[k], overlay.fields[k]))
  }

  lemma {:induction false} MergedAgrees(base: Tree, overlay: Tree)
    ensures AgreeOutside(Merge(base, overlay), Merge(base, overlay), overlay)
    ensures AgreeOutside(overlay, overlay, overlay)
    decreases overlay
  {
    if overlay.Node? {
      forall k | k in overlay.fields && overlay.fields[k].Node?
        ensures AgreeOutside(overlay.fields[k], overlay.fields[k], overlay.fields[k])
      {
        MergedAgrees(overlay.fields[k], overlay.fields[k]);
      }
      if base.Node? {
        var y := Merge(base, overlay);
        forall k | k in overlay.fields && overlay.fields[k].Node?
          ensures k in y.fields && AgreeOutside(y.fields[k], y.fields[k], overlay.fields[k])
        {
          MergedAgrees(if k in base.fields then base.fields[k] else overlay.fields[k], overlay.fields[k]);
        }
      }
    }
  }

  /** Such a difference does not survive the overlay. */
  lemma {:induction false} AgreeMerges(z: Tree, y: Tree, overlay: Tree)
    requires AgreeOutside(z, y, overlay) && overlay.Node?
    ensures Merge(z, overlay) == Merge(y, overlay)
    decreases overlay
  {
    forall k | k in Merge(y, overlay).fields
      ensures k in Merge(z, overlay).fields && Merge(z, overlay).fields[k] == Merge(y, overlay).fields[k]
    {
      MergeStep(z, overlay, k);
      MergeStep(y, overlay, k);
      if k in overlay.fields && overlay.fields[k].Node? { AgreeMerges(z.fields[k], y.fields[k], overlay.fields[k]); }
    }
    forall k | k in Merge(z, overlay).fields ensures k in Merge(y, overlay).fields {
      MergeStep(z, overlay, k);
      MergeStep(y, overlay, k);
    }
    assert Merge(z, overlay).fields == Merge(y, overlay).fields;
  }

  lemma {:induction false} PutBlocked(z: Tree, y: Tree, overlay: Tree, p: seq<string>, v: Tree)
    requires AgreeOutside(z, y, overlay) && Blocked(overlay, p)
    ensures AgreeOutside(Put(z, p, v), y, overlay)
    decreases |p|
  {
    var k := p[0];
    if overlay.fields[k].Node? { PutBlocked(z.fields[k], y.fields[k], overlay.fields[k], p[1..], v); }
  }

  /** Setting the defaults that a loaded file hides changes only what the file will replace. */
  lemma {:induction false} DefaultsAgree(z: Tree, y: Tree, base: Tree, overlay: Tree, options: seq<Opt>)
    requires overlay.Node? && y == Merge(base, overlay) && AgreeOutside(z, y, overlay)
    requires forall q :: Has(y, q) ==> Has(z, q)
    requires forall i :: 0 <= i < |options| && Settable(options[i]) ==> Has(base, Split(options[i].name))
    ensures AgreeOutside(WithDefaults(z, options), y, overlay)
    decreases |options|
  {
    hide Merge, AgreeOutside, Split;
    if |options| > 0 {
      var o := options[0];
      var p := Split(o.name);
      if Settable(o) && !Has(z, p) {
        assert !Has(y, p) && Has(base, p);
        FindMerged(base, overlay, p);
        PutBlocked(z, y, overlay, p, o.default);
        var z1 := Set(z, p, o.default);
        forall q | Has(y, q) ensures Has(z1, q) { FindStays(z, p, o.default, q); }
        DefaultsAgree(z1, y, base, overlay, options[1..]);
      } else {
        DefaultsAgree(z, y, base, overlay, options[1..]);
      }
    }
  }

  /** Loading the same JSON again changes nothing, whatever the options, the JSON and the state, even
      where the JSON has a plain value on the path of a default. */
  lemma LoadTwice(t: Tree, options: seq<Opt>, json: Tree)
    ensures Load(Load(t, options, json), options, json) == Load(t, options, json)
  {
    var d := WithDefaults(t, options);
    forall i | 0 <= i < |options| && Settable(options[i]) ensures Has(d, Split(options[i].name)) {
      DefaultsPresent(t, options, i);
    }
    hide Merge, AgreeOutside, WithDefaults, Split;
    if json.Node? {
      var y := Merge(d, json);
      MergedAgrees(d, json);
      DefaultsAgree(y, y, d, json, options);
      AgreeMerges(WithDefaults(y, options), y, json);
      MergeAbsorbs(d, json);
    } else {
      NothingToSet(d, options);
    }
  }

  /** What the JSON gives a value, has that value after loading. */
  lemma LoadedWins(t: Tree, options: seq<Opt>, json: Tree, p: seq<string>)
    requires |p| > 0 && Find(json, p).Some? && Find(json, p).value.Leaf?
    ensures Get(Load(t, options, json), p) == Find(json, p)
  {
    var d := WithDefaults(t, options);
    hide WithDefaults;
    if d.Node? { FindMerged(d, json, p); }
  }

  predicate Below(p: seq<string>, q: seq<string>) {
    p < q
  }

  lemma {:induction false} ObjectStays(t: Tree, options: seq<Opt>, p: seq<string>)
    requires Find(t, p).Some? && Find(t, p).value.Node?
    ensures Find(WithDefaults(t, options), p).Some? && Find(WithDefaults(t, options), p).value.Node?
    decreases |options|
  {
    if |options| > 0 {
      var o := options[0];
      var q := Split(o.name);
      hide Split;
      if !o.required && !Has(t, q) && |q| > 0 {
        SetObject(t, q, o.default, p);
        ObjectStays(Set(t, q, o.default), options[1..], p);
      } else {
        ObjectStays(t, options[1..], p);
      }
    }
  }

  lemma SetObject(t: Tree, q: seq<string>, v: Tree, p: seq<string>)
    requires |q| > 0 && Find(t, q).None? && Find(t, p).Some? && Find(t, p).value.Node?
    ensures Find(Put(t, q, v), p).Some? && Find(Put(t, q, v), p).value.Node?
  {
    if Prefix(p, q) {
      assert |p| == |q| ==> p == q;
      assert q == p + q[|p|..];
      FindAbove(t, p, q[|p|..], v);
    } else {
      if Prefix(q, p) {
        assert p == q + p[|q|..];
        FindPrefix(t, q, p[|q|..]);
      }
      FindOther(t, q, v, p);
    }
  }

  lemma {:induction false} FindPrefix(t: Tree, q: seq<string>, r: seq<string>)
    requires Find(t, q + r).Some?
    ensures Find(t, q).Some?
    decreases |q|
  {
    if |q| > 0 {
      assert (q + r)[0] == q[0] && (q + r)[1..] == q[1..] + r;
      FindPrefix(t.fields[q[0]], q[1..], r);
    }
  }

  lemma NothingBelowLeaf(t: Tree, p: seq<string>, q: seq<string>)
    requires Find(t, p).Some? && Find(t, p).value.Leaf? && Below(p, q)
    ensures Find(t, q).None?
    decreases |p|
  {
    if |p| > 0 { NothingBelowLeaf(t.fields[p[0]], p[1..], q[1..]); }
  }

  /** Applying the defaults keeps a plain value exactly when no default lies below it: one that does
      replaces the value by an object. */
  lemma {:induction false} DefaultsKeepValue(t: Tree, options: seq<Opt>, p: seq<string>)
    requires |p| > 0 && Find(t, p).Some? && Find(t, p).value.Leaf?
    ensures Get(WithDefaults(t, options), p) == Get(t, p) <==>
              forall i :: 0 <= i < |options| && Settable(options[i]) ==> !Below(p, Split(options[i].name))
    decreases |options|
  {
    if |options| > 0 {
      var o := options[0];
      var q := Split(o.name);
      hide Split;
      assert forall i :: 0 < i < |options| ==> options[i] == options[1..][i - 1];
      if Settable(o) && Below(p, q) {
        NothingBelowLeaf(t, p, q);
        assert q == p + q[|p|..];
        FindAbove(t, p, q[|p|..], o.default);
        ObjectStays(Set(t, q, o.default), options[1..], p);
        assert Settable(options[0]) && Below(p, Split(options[0].name));
      } else {
        var t1 := if !o.required && !Has(t, q) then Set(t, q, o.default) else t;
        LeafStays(t, o, p);
        DefaultsKeepValue(t1, options[1..], p);
      }
    }
  }

  lemma LeafStays(t: Tree, o: Opt, p: seq<string>)
    requires |p| > 0 && Find(t, p).Some? && !(Settable(o) && Below(p, Split(o.name)))
    ensures var q := Split(o.name);
      Find(if !o.required && !Has(t, q) then Set(t, q, o.default) else t, p) == Find(t, p)
  {
    var q := Split(o.name);
    hide Split;
    if !o.required && !Has(t, q) && |q| > 0 {
      if Prefix(q, p) {
        assert p == q + p[|q|..];
        FindPrefix(t, q, p[|q|..]);
      }
      FindOther(t, q, o.default, p);
    }
  }

  // ----- Dotted names -----

  predicate Part(s: string) {
    s != "" && '.' !in s
  }

  function Join(parts: seq<string>): string
    decreases |parts|
  {
    if |parts| == 0 then "" else if |parts| == 1 then parts[0] else parts[0] + "." + Join(parts[1..])
  }

  lemma {:induction false} SplitPart(s: string, rest: string, part: string)
    requires '.' !in s
    ensures SplitFrom(s + rest, part) == SplitFrom(rest, part + s)
    decreases |s|
  {
    if |s| == 0 {
      assert s + rest == rest && part + s == part;
    } else {
      assert (s + rest)[0] == s[0] && (s + rest)[1..] == s[1..] + rest;
      SplitPart(s[1..], rest, part + [s[0]]);
      assert part + [s[0]] + s[1..] == part + s;
    }
  }

  /** Joining parts with dots and splitting gives them back. */
  lemma {:induction false} SplitJoin(parts: seq<string>)
    requires forall i :: 0 <= i < |parts| ==> Part(parts[i])
    ensures Split(Join(parts)) == parts
    decreases |parts|
  {
    if |parts| == 1 {
      SplitPart(parts[0], "", "");
      assert parts[0] + "" == parts[0] && "" + parts[0] == parts[0];
    } else if |parts| > 1 {
      var tail := "." + Join(parts[1..]);
      assert Join(parts) == parts[0] + tail;
      SplitPart(parts[0], tail, "");
      assert "" + parts[0] == parts[0] && tail[1..] == Join(parts[1..]);
      SplitJoin(parts[1..]);
      assert parts == [parts[0]] + parts[1..];
    }
  }

  /** How a path splits: at its first dot, and an empty part counts for nothing. */
  lemma SplitAtDot(first: string, rest: string)
    requires forall i :: 0 <= i < |first| ==> first[i] != '.'
    ensures Split(first) == if first == "" then [] else [first]
    ensures Split(first + "." + rest) == (if first == "" then [] else [first]) + Split(rest)
  {
    SplitPart(first, "", "");
    SplitPart(first, "." + rest, "");
    assert first + "" == first && "" + first == first && first + "." + rest == first + ("." + rest);
    assert ("." + rest)[1..] == rest;
  }

  /** And every path splits into parts of that kind. */
  lemma {:induction false} SplitParts(path: string, part: string)
    requires '.' !in part
    ensures forall i :: 0 <= i < |SplitFrom(path, part)| ==> Part(SplitFrom(path, part)[i])
    decreases |path|
  {
    if |path| > 0 { SplitParts(path[1..], if path[0] == '.' then "" else part + [path[0]]); }
  }

  /** Neither path leads through the other. */
  predicate Parted(p: seq<string>, q: seq<string>) {
    !(p <= q) && !(q <= p)
  }

  /** Options whose paths part from q, and options that are required, leave what is read there alone. */
  lemma {:induction false} DefaultsApart(t: Tree, options: seq<Opt>, q: seq<string>)
    requires |q| > 0
    requires forall j :: 0 <= j < |options| && !options[j].required && Split(options[j].name) != [] ==> Parted(Split(options[j].name), q)
    ensures Get(WithDefaults(t, options), q) == Get(t, q)
    decreases |options|
  {
    hide Split;
    if |options| > 0 {
      var o := options[0];
      var p := Split(o.name);
      var t1 := if !o.required && !Has(t, p) then Set(t, p, o.default) else t;
      assert forall j :: 0 < j < |options| ==> options[j] == options[1..][j - 1];
      DefaultsApart(t1, options[1..], q);
      if !o.required && p != [] { GetAfterSet(t, p, o.default, q); }
    }
  }

  /** An option that is not required gets its default exactly when it has no value yet. */
  lemma {:induction false} DefaultGiven(t: Tree, options: seq<Opt>, i: nat)
    requires i < |options| && !options[i].required && Split(options[i].name) != []
    requires forall j :: 0 <= j < |options| && j != i && !options[j].required && Split(options[j].name) != [] ==>
               Parted(Split(options[j].name), Split(options[i].name))
    ensures var q := Split(options[i].name);
      Get(WithDefaults(t, options), q) == if Get(t, q).Some? then Get(t, q) else Some(options[i].default)
    decreases |options|
  {
    hide Split;
    var q := Split(options[i].name);
    var o := options[0];
    var p := Split(o.name);
    var t1 := if !o.required && !Has(t, p) then Set(t, p, o.default) else t;
    assert forall j :: 0 < j < |options| ==> options[j] == options[1..][j - 1];
    if i == 0 {
      DefaultsApart(t1, options[1..], q);
      FindPut(t, q, o.default, []);
      assert q + [] == q;
    } else {
      DefaultGiven(t1, options[1..], i - 1);
      if !o.required && p != [] { GetAfterSet(t, p, o.default, q); }
    }
  }

  // ----- The code as it runs -----

  class Config {
    var data: Tree
    var options: seq<Opt>  // in the order of their names

    constructor (options: seq<Opt>)
      ensures data == EMPTY && this.options == options
    {
      data := EMPTY;
      this.options := options;
    }

    /** split_path. */
    method SplitPath(path: string) returns (parts: seq<string>)
      ensures parts == Split(path)
    {
      parts := [];
      var part := "";
      for i := 0 to |path|
        invariant parts + SplitFrom(path[i..], part) == Split(path)
      {
        assert path[i..][1..] == path[i + 1..];
        if path[i] == '.' {
          if part != "" { parts := parts + [part]; }
          part := "";
        } else {
          part := part + [path[i]];
        }
      }
      assert path[|path|..] == "";
      if part != "" { parts := parts + [part]; }
    }

    method GetValue(path: string) returns (value: Option<Tree>)
      ensures value == Get(data, Split(path))
    {
      var parts := SplitPath(path);
      if parts == [] { return None; }
      var current := data;
      for i := 0 to |parts|
        invariant Find(data, parts) == Find(current, parts[i..])
      {
        assert parts[i..][1..] == parts[i + 1..];
        if !current.Node? { return None; }
        if parts[i] !in current.fields { return None; }
        current := current.fields[parts[i]];
      }
      assert parts[|parts|..] == [];
      return Some(current);
    }

    /** Set: `current` points at the value under parts[..i]. */
    method SetValue(path: string, value: Tree)
      modifies `data
      ensures data == Set(old(data), Split(path), value)
    {
      hide Put, Find, Written;
      var parts := SplitPath(path);
      if parts == [] { return; }
      var last := |parts| - 1;
      FindHere(data, parts);
      for i := 0 to last
        invariant Find(data, parts[..i]).Some?
        invariant Put(data, parts, value) == Put(old(data), parts, value)
      {
        MakeObject(parts, i, value);
        var current := Find(data, parts[..i]).value;
        if parts[i] !in current.fields {
          var wider := Node(current.fields[parts[i] := EMPTY]);
          NewChild(current, parts[i..], value);
          WrittenPut(data, parts, i, wider, value);
          data := Written(data, parts[..i], wider);
        }
        FindNext(data, parts, i);
      }
      MakeObject(parts, last, value);
      var current := Find(data, parts[..last]).value;
      WriteLast(data, parts, value);
      data := Written(data, parts[..last], Node(current.fields[parts[last] := value]));
    }

    /** What `current` points at is made an object if it is none. */
    method MakeObject(parts: seq<string>, i: nat, ghost value: Tree)
      requires i < |parts| && Find(data, parts[..i]).Some?
      modifies `data
      ensures Find(data, parts[..i]).Some? && Find(data, parts[..i]).value.Node?
      ensures Put(data, parts, value) == Put(old(data), parts, value)
    {
      hide Put, Find, Written;
      var current := Find(data, parts[..i]).value;
      if !current.Node? {
        NewObject(current, parts[i..], value);
        WrittenPut(data, parts, i, EMPTY, value);
        data := Written(data, parts[..i], EMPTY);
      }
    }

    method ApplyDefaults()
      modifies `data
      ensures data == WithDefaults(old(data), options)
    {
      hide Split;
      for i := 0 to |options|
        invariant WithDefaults(data, options[i..]) == WithDefaults(old(data), options)
      {
        var o := options[i];
        assert options[i..][1..] == options[i + 1..];
        if !o.required {
          var present := GetValue(o.name);
          if present.None? { SetValue(o.name, o.default); }
        }
      }
      assert options[|options|..] == [];
    }

    /** ParseJson: whether every required option then has a value. */
    method ParseJson(json: Tree) returns (valid: bool)
      modifies `data
      ensures data == Load(old(data), options, json)
      ensures valid <==> forall i :: 0 <= i < |options| && options[i].required ==> Has(data, Split(options[i].name))
    {
      hide Split, Merge, WithDefaults;
      ApplyDefaults();
      if json.Node? { data := Merge(data, json); }
      for i := 0 to |options|
        invariant data == Load(old(data), options, json)
        invariant forall j :: 0 <= j < i && options[j].required ==> Has(data, Split(options[j].name))
      {
        if options[i].required {
          var present := GetValue(options[i].name);
          if present.None? {
            assert options[i].required && !Has(data, Split(options[i].name));
            return false;
          }
        }
      }
      valid := true;
    }
  }
}
