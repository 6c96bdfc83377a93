// Commits, ancestry, and the comparison the repository host answers with.
module CommitGraph {
  import opened Prelude

  type Commit = string

  // Every commit's parents are known and of an earlier generation.
  datatype Graph = Graph(parents: map<Commit, set<Commit>>, generation: map<Commit, nat>)

  predicate Valid(g: Graph) {
    && g.parents.Keys == g.generation.Keys
    && forall c, p | c in g.parents && p in g.parents[c] :: p in g.parents && g.generation[p] < g.generation[c]
  }

  // The commit itself and everything it descends from.
  function Ancestors(g: Graph, c: Commit): (result: set<Commit>)
    requires Valid(g) && c in g.parents
    ensures c in result
    decreases g.generation[c]
  {
    {c} + set p, a | p in g.parents[c] && a in Ancestors(g, p) :: a
  }

  predicate Linked(g: Graph, path: seq<Commit>) {
    && |path| > 0 && (forall i | 0 <= i < |path| :: path[i] in g.parents)
    && forall i | 0 <= i < |path| - 1 :: path[i + 1] in g.parents[path[i]]
  }

  // There is a chain of parent links from `c` back to `a`.
  ghost predicate DescendsFrom(g: Graph, c: Commit, a: Commit) {
    exists path :: Linked(g, path) && path[0] == c && path[|path| - 1] == a
  }

  lemma {:induction false} AncestorHasPath(g: Graph, c: Commit, a: Commit)
    requires Valid(g) && c in g.parents && a in Ancestors(g, c)
    ensures DescendsFrom(g, c, a)
    decreases g.generation[c]
  {
    if a == c {
      assert Linked(g, [c]);
    } else {
      var p :| p in g.parents[c] && a in Ancestors(g, p);
      AncestorHasPath(g, p, a);
      var path :| Linked(g, path) && path[0] == p && path[|path| - 1] == a;
      assert Linked(g, [c] + path);
    }
  }

  lemma {:induction false} PathEndsInAncestor(g: Graph, path: seq<Commit>)
    requires Valid(g) && Linked(g, path)
    ensures path[|path| - 1] in Ancestors(g, path[0])
    decreases |path|
  {
    if |path| > 1 {
      assert Linked(g, path[1..]);
      PathEndsInAncestor(g, path[1..]);
    }
  }

  lemma AncestorIffPath(g: Graph, c: Commit, a: Commit)
    requires Valid(g) && c in g.parents
    ensures a in Ancestors(g, c) <==> DescendsFrom(g, c, a)
  {
    if a in Ancestors(g, c) { AncestorHasPath(g, c, a); }
    if DescendsFrom(g, c, a) {
      var path :| Linked(g, path) && path[0] == c && path[|path| - 1] == a;
      PathEndsInAncestor(g, path);
    }
  }

  lemma {:induction false} AncestorsNested(g: Graph, c: Commit, a: Commit)
    requires Valid(g) && c in g.parents && a in Ancestors(g, c)
    ensures a in g.parents && Ancestors(g, a) <= Ancestors(g, c)
    decreases g.generation[c]
  {
    if a != c {
      var p :| p in g.parents[c] && a in Ancestors(g, p);
      AncestorsNested(g, p, a);
    }
  }

  datatype Status = Ahead | Behind | Diverged | Identical

  datatype Comparison = Comparison(status: Status, behindBy: nat)

  // The host's answer for `base...head`: how many commits each side has that
  // the other does not reach.
  function Compare(g: Graph, base: Commit, head: Commit): Comparison
    requires Valid(g) && base in g.parents && head in g.parents
  {
    var behind := |Ancestors(g, base) - Ancestors(g, head)|;
    var ahead := |Ancestors(g, head) - Ancestors(g, base)|;
    Comparison(if base == head then Identical
               else if behind == 0 then Ahead
               else if ahead == 0 then Behind
               else Diverged, behind)
  }

  // "Not behind" is exactly ancestry.
  lemma NotBehindIffDescends(g: Graph, base: Commit, head: Commit)
    requires Valid(g) && base in g.parents && head in g.parents
    ensures Compare(g, base, head).behindBy == 0 <==> DescendsFrom(g, head, base)
    ensures Compare(g, base, head).behindBy == 0 <==> Compare(g, base, head).status in {Ahead, Identical}
  {
    AncestorIffPath(g, head, base);
    var missing := Ancestors(g, base) - Ancestors(g, head);
    if base in Ancestors(g, head) {
      AncestorsNested(g, head, base);
      assert missing == {};
    } else {
      assert base in missing;
    }
  }
}
