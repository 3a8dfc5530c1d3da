/** The commit graph as git sees it: ancestry over a growing, acyclic history. */
module CommitGraph {

  /** Commits in creation order, each with its parents; a parent always precedes its child. */
  type History = h: seq<seq<nat>> | Acyclic(h) witness []

  predicate Acyclic(h: seq<seq<nat>>) {
    forall c, i :: 0 <= c < |h| && 0 <= i < |h[c]| ==> h[c][i] < c
  }

  /** `to` is `from` or one of its ancestors. */
  predicate Reaches(h: History, from: nat, to: nat)
    decreases from
  {
    from < |h| && (from == to || exists i :: 0 <= i < |h[from]| && Reaches(h, h[from][i], to))
  }

  lemma {:induction false} ReachesTransitive(h: History, a: nat, b: nat, c: nat)
    requires Reaches(h, a, b) && Reaches(h, b, c)
    ensures Reaches(h, a, c)
    decreases a
  {
    if a != b {
      var i :| 0 <= i < |h[a]| && Reaches(h, h[a][i], b);
      ReachesTransitive(h, h[a][i], b, c);
    }
  }

  /** New commits change nothing about the ancestry of old ones. */
  lemma {:induction false} ReachesGrown(h: History, grown: History, a: nat, b: nat)
    requires h <= grown && a < |h|
    ensures Reaches(h, a, b) <==> Reaches(grown, a, b)
    decreases a
  {
    assert grown[a] == h[a];
    forall i | 0 <= i < |h[a]|
      ensures Reaches(h, h[a][i], b) <==> Reaches(grown, h[a][i], b)
    {
      ReachesGrown(h, grown, h[a][i], b);
    }
  }

  lemma {:induction false} ReachesBack(h: History, a: nat, b: nat)
    requires Reaches(h, a, b)
    ensures b <= a < |h|
    decreases a
  {
    if a != b {
      var i :| 0 <= i < |h[a]| && Reaches(h, h[a][i], b);
      ReachesBack(h, h[a][i], b);
    }
  }

  /** A walk from child to parent. */
  ghost predicate IsPath(h: History, path: seq<nat>) {
    && path != [] && (forall i :: 0 <= i < |path| ==> path[i] < |h|)
    && forall i :: 0 <= i < |path| - 1 ==> path[i + 1] in h[path[i]]
  }

  lemma {:induction false} PathIsReached(h: History, path: seq<nat>)
    requires IsPath(h, path)
    ensures Reaches(h, path[0], path[|path| - 1])
    decreases |path|
  {
    if |path| > 1 {
      var rest := path[1..];
      assert forall i :: 0 <= i < |rest| ==> rest[i] == path[i + 1];
      assert IsPath(h, rest);
      PathIsReached(h, rest);
      var i :| 0 <= i < |h[path[0]]| && h[path[0]][i] == path[1];
    }
  }

  lemma {:induction false} ReachedByPath(h: History, from: nat, to: nat) returns (path: seq<nat>)
    requires Reaches(h, from, to)
    ensures IsPath(h, path) && path[0] == from && path[|path| - 1] == to
    decreases from
  {
    if from == to {
      path := [from];
    } else {
      var i :| 0 <= i < |h[from]| && Reaches(h, h[from][i], to);
      var rest := ReachedByPath(h, h[from][i], to);
      path := [from] + rest;
    }
  }

  /** One commit reaches another exactly when a walk from child to parent leads there. */
  lemma ReachesIff(h: History, from: nat, to: nat)
    ensures Reaches(h, from, to) <==>
              exists path :: IsPath(h, path) && path[0] == from && path[|path| - 1] == to
  {
    if Reaches(h, from, to) {
      var path := ReachedByPath(h, from, to);
    }
    if path :| IsPath(h, path) && path[0] == from && path[|path| - 1] == to {
      PathIsReached(h, path);
    }
  }
}
