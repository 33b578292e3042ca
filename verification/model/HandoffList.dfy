/** The list of executable images that BL2 hands over, threaded through the image descriptor array. */
module HandoffList {
  import opened Basics

  /** The part of a descriptor that the construction of the list reads. */
  datatype Desc = Desc(imageId: nat, executable: bool, first: bool, nextHandoff: nat)

  /** The first descriptor of an image, or the number of descriptors. */
  function IndexOf(descs: seq<Desc>, id: nat): (i: nat)
    ensures i <= |descs| && (forall k :: 0 <= k < i ==> descs[k].imageId != id)
    ensures i < |descs| ==> descs[i].imageId == id
  {
    if descs == [] then 0
    else if descs[0].imageId == id then 0
    else
      assert forall k :: 0 < k < |descs| ==> descs[k] == descs[1..][k - 1];
      1 + IndexOf(descs[1..], id)
  }

  predicate IsHead(descs: seq<Desc>, i: int) {
    && 0 <= i < |descs| && descs[i].executable && descs[i].first
    && forall k :: 0 <= k < i ==> !(descs[k].executable && descs[k].first)
  }

  /** `j` is where the hand-off goes on after `i`; descriptor 0 is never handed off to. */
  predicate Follows(descs: seq<Desc>, i: nat, j: nat)
    requires i < |descs|
  {
    descs[i].nextHandoff != INVALID_IMAGE_ID && 0 < j < |descs| && j == IndexOf(descs, descs[i].nextHandoff)
  }

  /** A path along the hand-off identifiers through executable images. */
  ghost predicate Path(descs: seq<Desc>, path: seq<nat>) {
    && (forall k :: 0 <= k < |path| ==> path[k] < |descs| && descs[path[k]].executable)
    && (forall k :: 0 < k < |path| ==> Follows(descs, path[k - 1], path[k]))
  }

  /** A path from the head to an image that hands off to none. */
  ghost predicate Chain(descs: seq<Desc>, path: seq<nat>) {
    && path != [] && Path(descs, path) && IsHead(descs, path[0])
    && descs[path[|path| - 1]].nextHandoff == INVALID_IMAGE_ID
  }

  ghost predicate AllDistinct(path: seq<nat>) {
    forall i, j :: 0 <= i < j < |path| ==> path[i] != path[j]
  }

  // ---- Chains are unique and have no loops ----

  /** From the same image on, the hand-off goes the same way. */
  lemma {:induction false} SameWay(descs: seq<Desc>, a: seq<nat>, b: seq<nat>, i: nat, j: nat, n: nat)
    requires Path(descs, a) && Path(descs, b) && i + n < |a| && j + n < |b| && a[i] == b[j]
    ensures a[i + n] == b[j + n]
    decreases n
  {
    if n > 0 {
      SameWay(descs, a, b, i, j, n - 1);
      assert Follows(descs, a[i + n - 1], a[i + n]) && Follows(descs, b[j + n - 1], b[j + n]);
    }
  }

  lemma NextInRange(descs: seq<Desc>, path: seq<nat>, k: nat)
    requires Path(descs, path) && k + 1 < |path|
    ensures var id := descs[path[k]].nextHandoff; id != INVALID_IMAGE_ID && 0 < IndexOf(descs, id) < |descs|
  {
    assert Follows(descs, path[k + 1 - 1], path[k + 1]);
  }

  lemma ChainDistinct(descs: seq<Desc>, path: seq<nat>)
    requires Chain(descs, path)
    ensures AllDistinct(path)
  {
    forall i, j | 0 <= i < j < |path| ensures path[i] != path[j] {
      if path[i] == path[j] {
        var n := |path| - 1 - j;
        NextInRange(descs, path, i + n);
        SameWay(descs, path, path, i, j, n);
      }
    }
  }

  lemma ChainUnique(descs: seq<Desc>, a: seq<nat>, b: seq<nat>)
    requires Chain(descs, a) && Chain(descs, b)
    ensures a == b
  {
    HeadUnique(descs, a[0], b[0]);
    NotShorter(descs, a, b);
    NotShorter(descs, b, a);
    forall n | 0 <= n < |a| ensures a[n] == b[n] { SameWay(descs, a, b, 0, 0, n); }
  }

  lemma HeadUnique(descs: seq<Desc>, i: nat, j: nat)
    requires IsHead(descs, i) && IsHead(descs, j)
    ensures i == j
  {
  }

  lemma NotShorter(descs: seq<Desc>, a: seq<nat>, b: seq<nat>)
    requires Chain(descs, a) && Path(descs, b) && b != [] && a[0] == b[0]
    ensures |b| <= |a|
  {
    if |a| < |b| {
      NextInRange(descs, b, |a| - 1);
      SameWay(descs, a, b, 0, 0, |a| - 1);
    }
  }

  lemma {:induction false} Pigeonhole(path: seq<nat>, n: nat)
    requires AllDistinct(path) && forall k :: 0 <= k < |path| ==> path[k] < n
    ensures |path| <= n
    decreases n
  {
    if path != [] {
      assert path[0] < n;
      if k :| 0 <= k < |path| && path[k] == n - 1 {
        var rest := path[..k] + path[k + 1..];
        assert forall i :: 0 <= i < |rest| ==> rest[i] == path[if i < k then i else i + 1];
        Pigeonhole(rest, n - 1);
      } else {
        Pigeonhole(path, n - 1);
      }
    }
  }

  // ---- The list as it is built ----

  /** The links lead along the path and nowhere else. */
  ghost predicate Threaded(links: seq<Option<nat>>, path: seq<nat>) {
    && (forall k :: 0 <= k < |path| ==> path[k] < |links|)
    && (forall k :: 0 <= k < |path| - 1 ==> links[path[k]] == Some(path[k + 1]))
    && (forall i :: 0 <= i < |links| && (forall k :: 0 <= k < |path| - 1 ==> path[k] != i) ==> links[i] == None)
  }

  /** The list leads on from one more image. */
  lemma ThreadNext(links: seq<Option<nat>>, path: seq<nat>, index: nat)
    requires Threaded(links, path) && AllDistinct(path) && index < |links|
    ensures Threaded(if path == [] then links else links[path[|path| - 1] := Some(index)], path + [index])
  {
    if path != [] {
      var last := path[|path| - 1];
      var now, on := links[last := Some(index)], path + [index];
      forall i | 0 <= i < |now| && (forall k :: 0 <= k < |on| - 1 ==> on[k] != i) ensures now[i] == None {
        assert forall k :: 0 <= k < |path| - 1 ==> on[k] == path[k];
        assert on[|path| - 1] == last;
      }
    }
  }

  /** An image that is not linked yet has not been visited before. */
  lemma StillDistinct(links: seq<Option<nat>>, path: seq<nat>)
    requires Threaded(links, path) && (path != [] ==> AllDistinct(path[..|path| - 1]))
    requires path != [] ==> links[path[|path| - 1]] == None
    ensures AllDistinct(path)
  {
    forall i, j | 0 <= i < j < |path| ensures path[i] != path[j] {
      if j < |path| - 1 {
        assert path[..|path| - 1][i] == path[i] && path[..|path| - 1][j] == path[j];
      } else {
        assert links[path[i]] == Some(path[i + 1]);
      }
    }
  }

  /** The walk has come along `path` and goes on at `index`. */
  ghost predicate Along(descs: seq<Desc>, path: seq<nat>, index: nat, head: nat) {
    && Path(descs, path) && IsHead(descs, head)
    && if path == [] then index == head else path[0] == head && Follows(descs, path[|path| - 1], index)
  }

  lemma {:induction false} AgreesAt(descs: seq<Desc>, p: seq<nat>, path: seq<nat>, k: nat)
    requires Chain(descs, p) && Path(descs, path) && k < |path| && p[0] == path[0]
    ensures k < |p| && p[k] == path[k]
  {
    if k > 0 {
      AgreesAt(descs, p, path, k - 1);
      assert Follows(descs, path[k - 1], path[k]);
      assert k < |p|;
      assert Follows(descs, p[k - 1], p[k]);
    }
  }

  /** Every chain comes the same way. */
  lemma Agrees(descs: seq<Desc>, p: seq<nat>, path: seq<nat>, index: nat, head: nat)
    requires Chain(descs, p) && Along(descs, path, index, head)
    ensures |path| < |p| && p[..|path|] == path && p[|path|] == index
  {
    HeadUnique(descs, p[0], head);
    forall k | 0 <= k < |path| ensures k < |p| && p[k] == path[k] { AgreesAt(descs, p, path, k); }
    if path != [] {
      AgreesAt(descs, p, path, |path| - 1);
      assert |path| < |p|;
      assert Follows(descs, p[|path| - 1], p[|path|]);
    }
  }

  /** No chain goes through an image that is not executable. */
  lemma NotExecutable(descs: seq<Desc>, path: seq<nat>, index: nat, head: nat)
    requires Along(descs, path, index, head) && index < |descs| && !descs[index].executable
    ensures forall p :: !Chain(descs, p)
  {
    forall p | Chain(descs, p) ensures false { Agrees(descs, p, path, index, head); }
  }

  /** No chain comes back to an image that has been linked already. */
  lemma Looped(descs: seq<Desc>, links: seq<Option<nat>>, path: seq<nat>, index: nat, head: nat)
    requires Along(descs, path, index, head) && path != [] && Threaded(links, path)
    requires links[path[|path| - 1]].Some?
    ensures forall p :: !Chain(descs, p)
  {
    var last := |path| - 1;
    var k :| 0 <= k < last && path[k] == path[last];
    forall p | Chain(descs, p) ensures false {
      Agrees(descs, p, path, index, head);
      assert p[k] == p[..|path|][k] && p[last] == p[..|path|][last];
      ChainDistinct(descs, p);
    }
  }

  /** No chain ends where the next image is missing, or is the one in descriptor 0. */
  lemma DeadEnd(descs: seq<Desc>, path: seq<nat>, head: nat)
    requires Path(descs, path) && path != [] && IsHead(descs, head) && path[0] == head
    requires var id := descs[path[|path| - 1]].nextHandoff;
             id != INVALID_IMAGE_ID && !(0 < IndexOf(descs, id) < |descs|)
    ensures forall p :: !Chain(descs, p)
  {
    var last := |path| - 1;
    forall p | Chain(descs, p) ensures false {
      HeadUnique(descs, p[0], head);
      AgreesAt(descs, p, path, last);
      NextInRange(descs, p, last);
    }
  }

  /** No chain is longer than the array. */
  lemma TooLong(descs: seq<Desc>, path: seq<nat>, index: nat, head: nat)
    requires Along(descs, path, index, head) && |path| == |descs|
    ensures forall p :: !Chain(descs, p)
  {
    forall p | Chain(descs, p) ensures false {
      Agrees(descs, p, path, index, head);
      ChainDistinct(descs, p);
      Pigeonhole(p, |descs|);
    }
  }

  datatype Result = NoImages | List(head: nat) | Halted

  method FindHead(descs: seq<Desc>) returns (i: nat)
    ensures i <= |descs| && (i < |descs| ==> IsHead(descs, i))
    ensures i == |descs| ==> forall k :: !IsHead(descs, k)
  {
    i := 0;
    while i < |descs| && !(descs[i].executable && descs[i].first)
      invariant i <= |descs| && forall k :: 0 <= k < i ==> !(descs[k].executable && descs[k].first)
    {
      i := i + 1;
    }
  }

  /** `get_bl_params_node_index`; the number of descriptors stands for -1. */
  method NodeIndex(descs: seq<Desc>, id: nat) returns (i: nat)
    ensures i == IndexOf(descs, id)
  {
    i := 0;
    while i < |descs| && descs[i].imageId != id
      invariant i <= |descs| && forall k :: 0 <= k < i ==> descs[k].imageId != id
    {
      i := i + 1;
    }
  }

  /** The image at `index` is linked behind the last one, unless an assertion fails. */
  method LinkNode(descs: seq<Desc>, links: array<Option<nat>>, last: Option<nat>, index: nat,
                  ghost path: seq<nat>, ghost head: nat) returns (ok: bool)
    requires links.Length == |descs| && index < |descs|
    requires Along(descs, path, index, head) && (last == if path == [] then None else Some(path[|path| - 1]))
    requires (path != [] ==> AllDistinct(path[..|path| - 1])) && Threaded(links[..], path)
    modifies links
    ensures ok ==> AllDistinct(path) && Path(descs, path + [index]) && Threaded(links[..], path + [index])
    ensures !ok ==> forall p :: !Chain(descs, p)
  {
    if !descs[index].executable {
      NotExecutable(descs, path, index, head);
      return false;
    }
    if last.Some? && links[last.value].Some? {
      Looped(descs, links[..], path, index, head);
      return false;
    }
    StillDistinct(links[..], path);
    ThreadNext(links[..], path, index);
    if last.Some? { links[last.value] := Some(index); }
    ok := true;
  }

  /**
   * `get_next_bl_params_from_mem_params_desc`, from null links: the list is the chain of hand-offs from the first
   * first-executable image, and there is one exactly if no assertion fails.
   */
  method BuildList(descs: seq<Desc>, links: array<Option<nat>>) returns (r: Result, ghost path: seq<nat>)
    requires links.Length == |descs| && forall i :: 0 <= i < links.Length ==> links[i] == None
    modifies links
    ensures r.NoImages? <==> descs == []
    ensures r.List? ==> Chain(descs, path) && r.head == path[0] && AllDistinct(path) && Threaded(links[..], path)
    ensures r.Halted? ==> forall p :: !Chain(descs, p)
  {
    path := [];
    if |descs| == 0 { return NoImages, []; }
    var head := FindHead(descs);
    if head == |descs| { return Halted, []; }
    var index: nat := head;
    var last: Option<nat> := None;
    var count := 0;
    while count < |descs|
      invariant count == |path| <= |descs| && index < |descs|
      invariant Along(descs, path, index, head) && (last == if path == [] then None else Some(path[|path| - 1]))
      invariant path != [] ==> AllDistinct(path[..|path| - 1])
      invariant Threaded(links[..], path)
    {
      var ok := LinkNode(descs, links, last, index, path, head);
      if !ok { return Halted, path; }
      path := path + [index];
      assert path[..|path| - 1] == path[..count];
      last := Some(index);
      var id := descs[index].nextHandoff;
      if id == INVALID_IMAGE_ID {
        ChainDistinct(descs, path);
        return List(head), path;
      }
      index := NodeIndex(descs, id);
      if !(0 < index < |descs|) {
        DeadEnd(descs, path, head);
        return Halted, path;
      }
      count := count + 1;
    }
    TooLong(descs, path, index, head);
    r := Halted;
  }
}
