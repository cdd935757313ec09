/**
 * `get_submission_order(dd, project_id, prefix, suffix)`: the order in which the node TSVs of a
 * project can be submitted, each node with its depth below `project`. The nodes come from the
 * names of the TSV files; a FIFO worklist then gives each node a depth from its links in the
 * data dictionary, putting a node back at the end of the list while a link target has no depth
 * yet; the (node, depth) pairs are returned sorted by depth.
 *
 * The directory listing is an input (`fileNames`, in the order glob gives them). The loop runs
 * as long as the worklist is not empty, which need not ever happen; fuel bounds the number of
 * nodes taken off the list, and a run that uses it up ends with None.
 */
module SubmissionOrder {
  import opened Wrappers
  import opened Strings

  /** A link of a node in the data dictionary: a subgroup of targets, one target, or neither. */
  datatype Link = Subgroup(targets: seq<string>) | Target(target: string) | NoTarget

  /** `dd[node]['links']` for every node of the dictionary. */
  type Dictionary = map<string, seq<Link>>

  /** The `suborder` dict: its keys in insertion order, and the depth of each. */
  datatype Order = Order(keys: seq<string>, depth: map<string, nat>)

  ghost predicate ValidOrder(o: Order) {
    && (forall i, j :: 0 <= i < j < |o.keys| ==> o.keys[i] != o.keys[j])
    && (forall k :: k in o.keys <==> k in o.depth)
  }

  /** `suborder[node] = d`: a new key goes last, an existing one keeps its place. */
  function SetDepth(o: Order, node: string, d: nat): (r: Order)
    requires ValidOrder(o)
    ensures ValidOrder(r) && r.depth == o.depth[node := d]
  {
    Order(if node in o.depth then o.keys else o.keys + [node], o.depth[node := d])
  }

  /** The loop's state: the order so far and the worklist `all_nodes`. */
  datatype State = State(order: Order, work: seq<string>)

  const ProjectNode := "project"
  const MetadataCollection := "core_metadata_collection"

  /** Every depth is at least 1. */
  predicate Positive(o: Order) {
    forall k :: k in o.depth ==> o.depth[k] >= 1
  }

  ghost predicate ValidState(st: State) {
    ValidOrder(st.order) && Positive(st.order)
  }

  // ---------------------------------------------------------------- one link target

  /** One target of a subgroup: project gives 1, an ordered target its depth + 1, `core_metadata_collection` nothing. */
  function SubStep(node: string, target: string, st: State): (r: State)
    requires ValidState(st)
    ensures ValidState(r)
  {
    if target == ProjectNode then State(SetDepth(st.order, node, 1), st.work)
    else if target in st.order.depth then State(SetDepth(st.order, node, st.order.depth[target] + 1), st.work)
    else if target == MetadataCollection then st
    else State(st.order, st.work + [node])
  }

  /** A link's own target: as a subgroup target, but without the `core_metadata_collection` case. */
  function TargetStep(node: string, target: string, st: State): (r: State)
    requires ValidState(st)
    ensures ValidState(r)
  {
    if target == ProjectNode then State(SetDepth(st.order, node, 1), st.work)
    else if target in st.order.depth then State(SetDepth(st.order, node, st.order.depth[target] + 1), st.work)
    else State(st.order, st.work + [node])
  }

  /** The subgroup's targets, in order. */
  function SubsFold(node: string, subs: seq<string>, st: State): (r: State)
    requires ValidState(st)
    ensures ValidState(r)
    decreases |subs|
  {
    if subs == [] then st else SubStep(node, subs[|subs| - 1], SubsFold(node, subs[..|subs| - 1], st))
  }

  function LinkStep(node: string, link: Link, st: State): (r: State)
    requires ValidState(st)
    ensures ValidState(r)
  {
    match link
    case Subgroup(subs) => SubsFold(node, subs, st)
    case Target(t) => TargetStep(node, t, st)
    case NoTarget => st
  }

  /** The node's links, in order. */
  function LinksFold(node: string, links: seq<Link>, st: State): (r: State)
    requires ValidState(st)
    ensures ValidState(r)
    decreases |links|
  {
    if links == [] then st else LinkStep(node, links[|links| - 1], LinksFold(node, links[..|links| - 1], st))
  }

  /** after is before with node appended some number of times. */
  predicate Requeued(before: seq<string>, after: seq<string>, node: string) {
    |before| <= |after| && after[..|before|] == before && forall k :: |before| <= k < |after| ==> after[k] == node
  }

  lemma RequeuedTrans(a: seq<string>, b: seq<string>, c: seq<string>, node: string)
    requires Requeued(a, b, node) && Requeued(b, c, node)
    ensures Requeued(a, c, node)
  {
    assert c[..|a|] == c[..|b|][..|a|];
  }

  /** Processing a node only ever puts that node back on the worklist. */
  lemma {:induction false} LinksFoldWork(node: string, links: seq<Link>, st: State)
    requires ValidState(st)
    ensures Requeued(st.work, LinksFold(node, links, st).work, node)
    decreases |links|
  {
    if links == [] {
      assert st.work[..|st.work|] == st.work;
    } else {
      var init := LinksFold(node, links[..|links| - 1], st);
      LinksFoldWork(node, links[..|links| - 1], st);
      match links[|links| - 1]
      case Subgroup(subs) =>
        SubsFoldWork(node, subs, init);
        RequeuedTrans(st.work, init.work, LinksFold(node, links, st).work, node);
      case Target(t) =>
        assert Requeued(init.work, LinksFold(node, links, st).work, node);
        RequeuedTrans(st.work, init.work, LinksFold(node, links, st).work, node);
      case NoTarget =>
    }
  }

  lemma {:induction false} SubsFoldWork(node: string, subs: seq<string>, st: State)
    requires ValidState(st)
    ensures Requeued(st.work, SubsFold(node, subs, st).work, node)
    decreases |subs|
  {
    if subs == [] {
      assert st.work[..|st.work|] == st.work;
    } else {
      var init := SubsFold(node, subs[..|subs| - 1], st);
      SubsFoldWork(node, subs[..|subs| - 1], st);
      assert Requeued(init.work, SubsFold(node, subs, st).work, node);
      RequeuedTrans(st.work, init.work, SubsFold(node, subs, st).work, node);
    }
  }

  /** The worklist after a node's visit holds only nodes of the dictionary. */
  lemma StaysInDictionary(dd: Dictionary, node: string, st: State)
    requires ValidState(st) && InDictionary(dd, st.work) && node in dd
    ensures InDictionary(dd, LinksFold(node, dd[node], st).work)
  {
    var after := LinksFold(node, dd[node], st).work;
    LinksFoldWork(node, dd[node], st);
    forall k | 0 <= k < |after| ensures after[k] in dd {
      if k < |st.work| {
        assert after[k] == after[..|st.work|][k];
      }
    }
  }

  /** Processing a node gives a depth to no other node. */
  lemma {:induction false} LinksFoldKeys(node: string, links: seq<Link>, st: State)
    requires ValidState(st)
    ensures forall k :: k in LinksFold(node, links, st).order.depth ==> k in st.order.depth || k == node
    decreases |links|
  {
    if links != [] {
      var init := LinksFold(node, links[..|links| - 1], st);
      LinksFoldKeys(node, links[..|links| - 1], st);
      match links[|links| - 1]
      case Subgroup(subs) => SubsFoldKeys(node, subs, init);
      case Target(t) =>
      case NoTarget =>
    }
  }

  lemma {:induction false} SubsFoldKeys(node: string, subs: seq<string>, st: State)
    requires ValidState(st)
    ensures forall k :: k in SubsFold(node, subs, st).order.depth ==> k in st.order.depth || k == node
    decreases |subs|
  {
    if subs != [] {
      SubsFoldKeys(node, subs[..|subs| - 1], st);
    }
  }

  // ---------------------------------------------------------------- the worklist

  predicate InDictionary(dd: Dictionary, work: seq<string>) {
    forall k :: 0 <= k < |work| ==> work[k] in dd
  }

  /** `while len(all_nodes) > 0`, with at most fuel nodes taken off the list. */
  function Drain(dd: Dictionary, st: State, fuel: nat): (r: Option<Order>)
    requires ValidState(st) && InDictionary(dd, st.work)
    ensures r.Some? ==> ValidOrder(r.value) && Positive(r.value)
    decreases fuel
  {
    if st.work == [] then Some(st.order)
    else if fuel == 0 then None
    else
      var node := st.work[0];
      var next := LinksFold(node, dd[node], State(st.order, st.work[1..]));
      StaysInDictionary(dd, node, State(st.order, st.work[1..]));
      Drain(dd, next, fuel - 1)
  }

  // ---------------------------------------------------------------- the file names

  /** `glob.glob("{prefix}*{suffix}")` keeps a name that starts with prefix and ends with suffix. */
  predicate Globbed(name: string, prefix: string, suffix: string) {
    |prefix| + |suffix| <= |name| && IsPrefix(prefix, name) && IsSuffix(suffix, name)
  }

  /** s has t at position i. */
  predicate At(s: string, i: int, t: string) {
    0 <= i && i + |t| <= |s| && s[i..i + |t|] == t
  }

  /**
   * The pattern `{p}(.+).{suffix}` matches name with p at a and suffix at k: the group is
   * `name[a + |p|..k - 1]`, at least one character, and `.` is the character at k - 1;
   * neither `.+` nor `.` matches a newline.
   */
  predicate Match(name: string, p: string, suffix: string, a: int, k: int) {
    At(name, a, p) && a + |p| + 2 <= k && At(name, k, suffix) && '\n' !in name[a + |p|..k]
  }

  /** The first newline at or after s, or the end of name: how far `.` can reach from s. */
  function LineEnd(name: string, s: nat): (e: nat)
    requires s <= |name|
    ensures s <= e <= |name|
    ensures forall m :: s <= m < e ==> name[m] != '\n'
    ensures e < |name| ==> name[e] == '\n'
    decreases |name| - s
  {
    if s == |name| || name[s] == '\n' then s else LineEnd(name, s + 1)
  }

  /** name[s..k] holds no newline exactly when k does not pass LineEnd(name, s). */
  lemma NoNewlineUpTo(name: string, s: nat, k: int)
    requires s <= k <= |name|
    ensures '\n' !in name[s..k] <==> k <= LineEnd(name, s)
  {
    var e := LineEnd(name, s);
    if k <= e {
      forall x | x in name[s..k] ensures x != '\n' {
        var m :| 0 <= m < k - s && name[s..k][m] == x;
        assert name[s + m] == x;
      }
    } else {
      assert name[s..k][e - s] == '\n';
    }
  }

  /** A match at a ends at a k up to LineEnd, where suffix occurs. */
  lemma MatchesAt(name: string, p: string, suffix: string, a: nat)
    requires a + |p| <= |name|
    ensures forall k :: Match(name, p, suffix, a, k) <==>
      At(name, a, p) && a + |p| + 2 <= k && At(name, k, suffix) && k <= LineEnd(name, a + |p|)
  {
    forall k
      ensures Match(name, p, suffix, a, k) <==>
        At(name, a, p) && a + |p| + 2 <= k && At(name, k, suffix) && k <= LineEnd(name, a + |p|)
    {
      if a + |p| <= k <= |name| {
        NoNewlineUpTo(name, a + |p|, k);
      }
    }
  }

  /** The rightmost place in [lo, j] where suffix occurs: where a greedy `(.+).` stops. */
  function LastAt(name: string, suffix: string, lo: int, j: int): (k: Option<int>)
    ensures k.Some? ==> lo <= k.value <= j && At(name, k.value, suffix) && forall m :: k.value < m <= j ==> !At(name, m, suffix)
    ensures k.None? ==> forall m :: lo <= m <= j ==> !At(name, m, suffix)
    decreases j - lo
  {
    if j < lo then None
    else if At(name, j, suffix) then Some(j)
    else LastAt(name, suffix, lo, j - 1)
  }

  /**
   * `re.search` from position i on: the leftmost place a where the pattern matches and,
   * `.+` being greedy, the rightmost k for that a.
   */
  function SearchFrom(name: string, p: string, suffix: string, i: nat): (m: Option<(int, int)>)
    ensures m.Some? ==> var (a, k) := m.value;
      && i <= a && Match(name, p, suffix, a, k)
      && (forall a', k' :: i <= a' < a ==> !Match(name, p, suffix, a', k'))
      && (forall k' :: k < k' ==> !Match(name, p, suffix, a, k'))
    ensures m.None? ==> forall a', k' :: i <= a' ==> !Match(name, p, suffix, a', k')
    decreases |name| - i
  {
    if i + |p| > |name| then None
    else
      MatchesAt(name, p, suffix, i);
      var k := LastAt(name, suffix, i + |p| + 2, LineEnd(name, i + |p|));
      if At(name, i, p) && k.Some? then Some((i, k.value))
      else SearchFrom(name, p, suffix, i + 1)
  }

  /** The pattern `{prefix}_{project_id}_(.+).{suffix}`, with prefix, project_id and suffix read literally. */
  function Pattern(prefix: string, projectId: string): string {
    prefix + "_" + projectId + "_"
  }

  /** `match.group(1)` of `re.search(regex, file_name)`, None where there is no match. */
  function NodeOf(name: string, prefix: string, projectId: string, suffix: string): (g: Option<string>)
    ensures g.None? <==> forall a, k :: !Match(name, Pattern(prefix, projectId), suffix, a, k)
  {
    var p := Pattern(prefix, projectId);
    match SearchFrom(name, p, suffix, 0)
    case None => None
    case Some((a, k)) => Some(name[a + |p|..k - 1])
  }

  /** The node a globbed file name gives, when the pattern matches it and the node is in the dictionary. */
  function SeedOf(dd: Dictionary, projectId: string, f: string, prefix: string, suffix: string): (node: Option<string>)
    ensures node.Some? ==> node.value in dd
  {
    var m := NodeOf(f, prefix, projectId, suffix);
    if Globbed(f, prefix, suffix) && m.Some? && m.value in dd then m else None
  }

  /** The nodes the files name that are in the dictionary, in file order. */
  function Seeds(dd: Dictionary, projectId: string, fileNames: seq<string>, prefix: string, suffix: string): (s: seq<string>)
    ensures InDictionary(dd, s)
    decreases |fileNames|
  {
    if fileNames == [] then []
    else
      var init := Seeds(dd, projectId, fileNames[..|fileNames| - 1], prefix, suffix);
      match SeedOf(dd, projectId, fileNames[|fileNames| - 1], prefix, suffix)
      case None => init
      case Some(node) => init + [node]
  }

  // ---------------------------------------------------------------- sorted(suborder.items(), key=itemgetter(1))

  /** The dict's items in insertion order. */
  function Items(o: Order): (items: seq<(string, nat)>)
    requires ValidOrder(o)
    ensures |items| == |o.keys|
    ensures forall i :: 0 <= i < |o.keys| ==> items[i] == (o.keys[i], o.depth[o.keys[i]])
  {
    seq(|o.keys|, i requires 0 <= i < |o.keys| => (o.keys[i], o.depth[o.keys[i]]))
  }

  predicate SortedByDepth(s: seq<(string, nat)>) {
    forall i, j :: 0 <= i < j < |s| ==> s[i].1 <= s[j].1
  }

  /** x placed after every element of s whose depth is at most its own. */
  function Insert(x: (string, nat), s: seq<(string, nat)>): (r: seq<(string, nat)>)
    ensures |r| == |s| + 1
    decreases |s|
  {
    if s == [] || s[|s| - 1].1 <= x.1 then s + [x]
    else Insert(x, s[..|s| - 1]) + [s[|s| - 1]]
  }

  /** Python's `sorted` with a key: a stable sort by depth, here by insertion. */
  function SortByDepth(s: seq<(string, nat)>): (r: seq<(string, nat)>)
    ensures |r| == |s|
    decreases |s|
  {
    if s == [] then [] else Insert(s[|s| - 1], SortByDepth(s[..|s| - 1]))
  }

  lemma {:induction false} InsertPermutes(x: (string, nat), s: seq<(string, nat)>)
    ensures multiset(Insert(x, s)) == multiset(s) + multiset{x}
    decreases |s|
  {
    if s != [] && s[|s| - 1].1 > x.1 {
      var init := s[..|s| - 1];
      InsertPermutes(x, init);
      assert s == init + [s[|s| - 1]];
    }
  }

  lemma {:induction false} InsertSorted(x: (string, nat), s: seq<(string, nat)>)
    requires SortedByDepth(s)
    ensures SortedByDepth(Insert(x, s))
    decreases |s|
  {
    if s != [] && s[|s| - 1].1 > x.1 {
      var init, last := s[..|s| - 1], s[|s| - 1];
      InsertSorted(x, init);
      InsertPermutes(x, init);
      var r := Insert(x, init);
      forall k | 0 <= k < |r| ensures r[k].1 <= last.1 {
        assert r[k] in multiset(r);
      }
    }
  }

  /** The result is sorted by depth and holds the same pairs, as often. */
  lemma {:induction false} SortByDepthSorts(s: seq<(string, nat)>)
    ensures SortedByDepth(SortByDepth(s)) && multiset(SortByDepth(s)) == multiset(s)
    decreases |s|
  {
    if s != [] {
      var init := s[..|s| - 1];
      SortByDepthSorts(init);
      InsertSorted(s[|s| - 1], SortByDepth(init));
      InsertPermutes(s[|s| - 1], SortByDepth(init));
      assert s == init + [s[|s| - 1]];
    }
  }

  /** Already sorted pairs come back unchanged: the sort moves nothing it does not have to. */
  lemma {:induction false} SortSorted(s: seq<(string, nat)>)
    requires SortedByDepth(s)
    ensures SortByDepth(s) == s
    decreases |s|
  {
    if s != [] {
      var init := s[..|s| - 1];
      SortSorted(init);
      assert s == init + [s[|s| - 1]];
    }
  }

  // ---------------------------------------------------------------- get_submission_order

  const NoOrder := Order([], map[])

  /** `get_submission_order(dd, project_id, prefix, suffix)` with at most fuel nodes taken off the worklist. */
  function SubmissionOrderSpec(dd: Dictionary, projectId: string, fileNames: seq<string>, prefix: string, suffix: string,
                               fuel: nat): Option<seq<(string, nat)>>
  {
    match Drain(dd, State(NoOrder, Seeds(dd, projectId, fileNames, prefix, suffix)), fuel)
    case None => None
    case Some(o) => Some(SortByDepth(Items(o)))
  }

  /** The `for file_name in file_names` loop: the worklist it starts `all_nodes` with. */
  method CollectNodes(dd: Dictionary, projectId: string, fileNames: seq<string>, prefix: string, suffix: string)
    returns (allNodes: seq<string>)
    ensures allNodes == Seeds(dd, projectId, fileNames, prefix, suffix)
  {
    allNodes := [];
    for i := 0 to |fileNames|
      invariant allNodes == Seeds(dd, projectId, fileNames[..i], prefix, suffix)
    {
      assert fileNames[..i + 1][..i] == fileNames[..i];
      var f := fileNames[i];
      var m := NodeOf(f, prefix, projectId, suffix);
      if Globbed(f, prefix, suffix) && m.Some? {
        if m.value in dd {
          allNodes := allNodes + [m.value];
        }
      }
    }
    assert fileNames[..|fileNames|] == fileNames;
  }

  /**
   * One link target of a node: `suborder[node]` is set to 1 for project and to the target's
   * depth + 1 for an ordered target; otherwise the node goes back on the worklist, except for a
   * subgroup's `core_metadata_collection` target.
   */
  method VisitTarget(node: string, target: string, inSubgroup: bool, keys0: seq<string>, depth0: map<string, nat>, work0: seq<string>)
    returns (keys: seq<string>, depth: map<string, nat>, work: seq<string>)
    requires ValidState(State(Order(keys0, depth0), work0))
    ensures var st := State(Order(keys0, depth0), work0);
      State(Order(keys, depth), work) == if inSubgroup then SubStep(node, target, st) else TargetStep(node, target, st)
  {
    keys, depth, work := keys0, depth0, work0;
    if target == ProjectNode {
      if node !in depth { keys := keys + [node]; }
      depth := depth[node := 1];
    } else if target in depth {
      var d := depth[target] + 1;
      if node !in depth { keys := keys + [node]; }
      depth := depth[node := d];
    } else if inSubgroup && target == MetadataCollection {
    } else {
      work := work + [node];
    }
  }

  /** The `for sub in link['subgroup']` loop of one node. */
  method VisitSubgroup(node: string, subs: seq<string>, keys0: seq<string>, depth0: map<string, nat>, work0: seq<string>)
    returns (keys: seq<string>, depth: map<string, nat>, work: seq<string>)
    requires ValidState(State(Order(keys0, depth0), work0))
    ensures State(Order(keys, depth), work) == SubsFold(node, subs, State(Order(keys0, depth0), work0))
  {
    keys, depth, work := keys0, depth0, work0;
    for k := 0 to |subs|
      invariant State(Order(keys, depth), work) == SubsFold(node, subs[..k], State(Order(keys0, depth0), work0))
    {
      assert subs[..k + 1][..k] == subs[..k];
      keys, depth, work := VisitTarget(node, subs[k], true, keys, depth, work);
    }
    assert subs[..|subs|] == subs;
  }

  /** The `for link in node_links` loop of one node. */
  method VisitLinks(node: string, links: seq<Link>, keys0: seq<string>, depth0: map<string, nat>, work0: seq<string>)
    returns (keys: seq<string>, depth: map<string, nat>, work: seq<string>)
    requires ValidState(State(Order(keys0, depth0), work0))
    ensures State(Order(keys, depth), work) == LinksFold(node, links, State(Order(keys0, depth0), work0))
  {
    keys, depth, work := keys0, depth0, work0;
    for j := 0 to |links|
      invariant State(Order(keys, depth), work) == LinksFold(node, links[..j], State(Order(keys0, depth0), work0))
    {
      assert links[..j + 1][..j] == links[..j];
      match links[j]
      case Subgroup(subs) =>
        keys, depth, work := VisitSubgroup(node, subs, keys, depth, work);
      case Target(target) =>
        keys, depth, work := VisitTarget(node, target, false, keys, depth, work);
      case NoTarget =>
    }
    assert links[..|links|] == links;
  }

  /** The `while len(all_nodes) > 0` loop, taking at most fuel nodes off the worklist; None when that is not enough. */
  method RunWorklist(dd: Dictionary, seeds: seq<string>, fuel: nat) returns (r: Option<Order>)
    requires InDictionary(dd, seeds)
    ensures r == Drain(dd, State(NoOrder, seeds), fuel)
  {
    var allNodes := seeds;
    var keys: seq<string>, depth: map<string, nat> := [], map[];
    var steps := fuel;
    while |allNodes| > 0
      invariant ValidState(State(Order(keys, depth), allNodes)) && InDictionary(dd, allNodes)
      invariant Drain(dd, State(Order(keys, depth), allNodes), steps) == Drain(dd, State(NoOrder, seeds), fuel)
      decreases steps
    {
      if steps == 0 {
        return None;
      }
      ghost var before := State(Order(keys, depth), allNodes);
      var node := allNodes[0];
      StaysInDictionary(dd, node, State(Order(keys, depth), allNodes[1..]));
      keys, depth, allNodes := VisitLinks(node, dd[node], keys, depth, allNodes[1..]);
      DrainStep(dd, before, State(Order(keys, depth), allNodes), steps);
      steps := steps - 1;
    }
    r := Some(Order(keys, depth));
  }

  method GetSubmissionOrder(dd: Dictionary, projectId: string, fileNames: seq<string>, prefix: string, suffix: string,
                            fuel: nat) returns (r: Option<seq<(string, nat)>>)
    ensures r == SubmissionOrderSpec(dd, projectId, fileNames, prefix, suffix, fuel)
  {
    var allNodes := CollectNodes(dd, projectId, fileNames, prefix, suffix);
    var suborder := RunWorklist(dd, allNodes, fuel);
    if suborder.None? {
      return None;
    }
    r := Some(SortByDepth(Items(suborder.value)));
  }

  // ---------------------------------------------------------------- properties

  /** The worklist is seeded with exactly the dictionary nodes that a globbed file name's match names. */
  lemma {:induction false} SeedsAre(dd: Dictionary, projectId: string, fileNames: seq<string>, prefix: string, suffix: string, x: string)
    ensures x in Seeds(dd, projectId, fileNames, prefix, suffix) <==>
      exists k :: 0 <= k < |fileNames| && SeedOf(dd, projectId, fileNames[k], prefix, suffix) == Some(x)
    decreases |fileNames|
  {
    if fileNames != [] {
      var n := |fileNames| - 1;
      var init := fileNames[..n];
      SeedsAre(dd, projectId, init, prefix, suffix, x);
      assert forall k :: 0 <= k < n ==> init[k] == fileNames[k];
      if x in Seeds(dd, projectId, fileNames, prefix, suffix) {
        if x !in Seeds(dd, projectId, init, prefix, suffix) {
          assert SeedOf(dd, projectId, fileNames[n], prefix, suffix) == Some(x);
        }
      }
      if exists k :: 0 <= k < |fileNames| && SeedOf(dd, projectId, fileNames[k], prefix, suffix) == Some(x) {
        var k :| 0 <= k < |fileNames| && SeedOf(dd, projectId, fileNames[k], prefix, suffix) == Some(x);
        if k == n {
          assert x in Seeds(dd, projectId, fileNames, prefix, suffix);
        }
      }
    }
  }

  predicate AllIn(xs: seq<string>, nodes: set<string>) {
    forall k :: 0 <= k < |xs| ==> xs[k] in nodes
  }

  /** Only nodes that were on the worklist get a depth. */
  lemma {:induction false} DrainKeys(dd: Dictionary, st: State, fuel: nat, nodes: set<string>)
    requires ValidState(st) && InDictionary(dd, st.work)
    requires AllIn(st.work, nodes) && forall k :: k in st.order.depth ==> k in nodes
    ensures var r := Drain(dd, st, fuel); r.Some? ==> forall k :: k in r.value.depth ==> k in nodes
    decreases fuel
  {
    if st.work != [] && fuel > 0 {
      var node := st.work[0];
      var rest := State(st.order, st.work[1..]);
      LinksFoldWork(node, dd[node], rest);
      LinksFoldKeys(node, dd[node], rest);
      StaysInDictionary(dd, node, rest);
      var next := LinksFold(node, dd[node], rest);
      assert node in nodes;
      forall k | 0 <= k < |next.work| ensures next.work[k] in nodes {
        if k < |rest.work| {
          assert next.work[k] == next.work[..|rest.work|][k];
        }
      }
      DrainKeys(dd, next, fuel - 1, nodes);
    }
  }

  /** A sequence without repeats holds each value at most once. */
  lemma {:induction false} CountedOnce(s: seq<(string, nat)>, x: (string, nat))
    requires forall i, j :: 0 <= i < j < |s| ==> s[i] != s[j]
    ensures multiset(s)[x] <= 1
    decreases |s|
  {
    if s != [] {
      var init := s[..|s| - 1];
      CountedOnce(init, x);
      assert s == init + [s[|s| - 1]];
      if s[|s| - 1] == x {
        assert x !in init;
      }
    }
  }

  /** A value held at two places is counted twice. */
  lemma CountedTwice(s: seq<(string, nat)>, i: int, j: int)
    requires 0 <= i < j < |s| && s[i] == s[j]
    ensures multiset(s)[s[i]] >= 2
  {
    assert s == s[..j] + s[j..];
    assert s[i] in s[..j];
    assert s[j] == s[j..][0];
  }

  /** Every pair of a result is an entry of the dict, and each entry appears once. */
  lemma ItemsShape(o: Order, s: seq<(string, nat)>)
    requires ValidOrder(o) && multiset(s) == multiset(Items(o))
    ensures forall i :: 0 <= i < |s| ==> s[i].0 in o.depth && s[i].1 == o.depth[s[i].0]
    ensures forall i, j :: 0 <= i < j < |s| ==> s[i].0 != s[j].0
  {
    var items := Items(o);
    forall i | 0 <= i < |s| ensures s[i] in items {
      assert s[i] in multiset(s);
    }
    forall i, j | 0 <= i < j < |s| ensures s[i].0 != s[j].0 {
      if s[i].0 == s[j].0 {
        assert s[i] in items && s[j] in items;
        assert s[i] == s[j];
        CountedTwice(s, i, j);
        CountedOnce(items, s[i]);
      }
    }
  }

  /**
   * A result lists each node at most once, with its depth, which is at least 1, sorted by
   * depth; and every node it lists is one the file names seeded the worklist with.
   */
  lemma SubmissionOrderShape(dd: Dictionary, projectId: string, fileNames: seq<string>, prefix: string, suffix: string, fuel: nat)
    ensures var r := SubmissionOrderSpec(dd, projectId, fileNames, prefix, suffix, fuel);
      r.Some? ==>
        && SortedByDepth(r.value)
        && (forall i :: 0 <= i < |r.value| ==> r.value[i].1 >= 1)
        && (forall i, j :: 0 <= i < j < |r.value| ==> r.value[i].0 != r.value[j].0)
        && (forall i :: 0 <= i < |r.value| ==> r.value[i].0 in Seeds(dd, projectId, fileNames, prefix, suffix))
  {
    var seeds := Seeds(dd, projectId, fileNames, prefix, suffix);
    var d := Drain(dd, State(NoOrder, seeds), fuel);
    if d.Some? {
      DrainKeys(dd, State(NoOrder, seeds), fuel, set k | k in seeds);
      SortByDepthSorts(Items(d.value));
      ItemsShape(d.value, SortByDepth(Items(d.value)));
    }
  }

  /** The rightmost place where suffix occurs is the one LastAt finds. */
  lemma {:induction false} LastAtIs(name: string, suffix: string, lo: int, j: int, k: int)
    requires lo <= k <= j && At(name, k, suffix) && forall m :: k < m <= j ==> !At(name, m, suffix)
    ensures LastAt(name, suffix, lo, j) == Some(k)
    decreases j - lo
  {
    if j != k {
      LastAtIs(name, suffix, lo, j - 1, k);
    }
  }

  /** A name that starts with p and has suffix last at k gives the match (0, k). */
  lemma FirstMatch(name: string, p: string, suffix: string, k: int)
    requires Match(name, p, suffix, 0, k) && forall m :: k < m <= |name| ==> !At(name, m, suffix)
    ensures SearchFrom(name, p, suffix, 0) == Some((0, k))
  {
    MatchesAt(name, p, suffix, 0);
    LastAtIs(name, suffix, |p| + 2, LineEnd(name, |p|), k);
  }

  /**
   * A node whose one link is to a node that has no depth and is not project is put back
   * forever: the loop never ends. The target need not be missing from the dictionary; a
   * direct link to `core_metadata_collection` is enough when no file names that node.
   */
  lemma {:induction false} UnresolvedNeverEnds(dd: Dictionary, node: string, target: string, o: Order, fuel: nat)
    requires ValidState(State(o, [node])) && node in dd && dd[node] == [Target(target)]
    requires target != ProjectNode && target !in o.depth
    ensures Drain(dd, State(o, [node]), fuel) == None
    decreases fuel
  {
    if fuel > 0 {
      assert [node][1..] == [];
      LinksFoldOne(node, Target(target), State(o, []));
      assert TargetStep(node, target, State(o, [])) == State(o, [node]);
      DrainStep(dd, State(o, [node]), State(o, [node]), fuel);
      UnresolvedNeverEnds(dd, node, target, o, fuel - 1);
    }
  }

  /** A subgroup whose targets are all an unordered `core_metadata_collection` changes nothing: the node is not put back. */
  lemma {:induction false} MetadataSkipped(node: string, subs: seq<string>, st: State)
    requires ValidState(st) && MetadataCollection !in st.order.depth
    requires forall k :: 0 <= k < |subs| ==> subs[k] == MetadataCollection
    ensures SubsFold(node, subs, st) == st
    decreases |subs|
  {
    if subs != [] {
      MetadataSkipped(node, subs[..|subs| - 1], st);
    }
  }

  const CaseVisit: Dictionary := map["case" := [Target(ProjectNode)], "visit" := [Target("case")]]
  const CaseOrdered := Order(["case"], map["case" := 1])
  const BothOrdered := Order(["case", "visit"], map["case" := 1, "visit" := 2])

  lemma CaseVisitNodes()
    ensures NodeOf("temp_P_visit.tsv", "temp", "P", "tsv") == Some("visit")
    ensures NodeOf("temp_P_case.tsv", "temp", "P", "tsv") == Some("case")
  {
    VisitNode();
    CaseNode();
  }

  lemma VisitNode()
    ensures NodeOf("temp_P_visit.tsv", "temp", "P", "tsv") == Some("visit")
  {
    assert "temp_P_visit.tsv" == "temp_P_" + "visit" + ".tsv";
    NodeOfNoNewline("temp_P_visit.tsv", "visit");
  }

  lemma CaseNode()
    ensures NodeOf("temp_P_case.tsv", "temp", "P", "tsv") == Some("case")
  {
    assert "temp_P_case.tsv" == "temp_P_" + "case" + ".tsv";
    NodeOfNoNewline("temp_P_case.tsv", "case");
  }

  /** `temp_P_<node>.tsv`, with node on one line, names node. */
  lemma NodeOfNoNewline(name: string, node: string)
    requires name == "temp_P_" + node + ".tsv" && |node| >= 1 && '\n' !in node
    ensures NodeOf(name, "temp", "P", "tsv") == Some(node)
  {
    var k := |name| - 3;
    assert Pattern("temp", "P") == "temp_P_";
    assert name[..7] == "temp_P_" && name[7..k - 1] == node && name[k..] == "tsv";
    assert name[7..k] == node + ".";
    FirstMatch(name, Pattern("temp", "P"), "tsv", k);
  }

  lemma LinksFoldOne(node: string, link: Link, st: State)
    requires ValidState(st)
    ensures LinksFold(node, [link], st) == LinkStep(node, link, st)
  {
    assert [link][..0] == [];
  }

  lemma DrainStep(dd: Dictionary, st: State, next: State, fuel: nat)
    requires ValidState(st) && InDictionary(dd, st.work) && st.work != [] && fuel > 0
    requires next == LinksFold(st.work[0], dd[st.work[0]], State(st.order, st.work[1..])) && InDictionary(dd, next.work)
    ensures Drain(dd, st, fuel) == Drain(dd, next, fuel - 1)
  {
  }

  /** Visiting visit before case is ordered puts it back. */
  lemma VisitRequeued(fuel: nat)
    requires fuel >= 1
    ensures Drain(CaseVisit, State(NoOrder, ["visit", "case"]), fuel) == Drain(CaseVisit, State(NoOrder, ["case", "visit"]), fuel - 1)
  {
    LinksFoldOne("visit", Target("case"), State(NoOrder, ["case"]));
    assert ["visit", "case"][1..] == ["case"] && ["case"] + ["visit"] == ["case", "visit"];
    DrainStep(CaseVisit, State(NoOrder, ["visit", "case"]), State(NoOrder, ["case", "visit"]), fuel);
  }

  /** Visiting case orders it at 1. */
  lemma CaseOrderedFirst(fuel: nat)
    requires fuel >= 1
    ensures Drain(CaseVisit, State(NoOrder, ["case", "visit"]), fuel) == Drain(CaseVisit, State(CaseOrdered, ["visit"]), fuel - 1)
  {
    LinksFoldOne("case", Target(ProjectNode), State(NoOrder, ["visit"]));
    assert SetDepth(NoOrder, "case", 1) == CaseOrdered;
    assert ["case", "visit"][1..] == ["visit"];
    DrainStep(CaseVisit, State(NoOrder, ["case", "visit"]), State(CaseOrdered, ["visit"]), fuel);
  }

  /** Visiting visit once case is ordered orders it at 2, and the loop ends. */
  lemma VisitOrderedNext(fuel: nat)
    requires fuel >= 1
    ensures Drain(CaseVisit, State(CaseOrdered, ["visit"]), fuel) == Some(BothOrdered)
  {
    LinksFoldOne("visit", Target("case"), State(CaseOrdered, []));
    assert "case" in CaseOrdered.depth && "visit" !in CaseOrdered.depth;
    assert SetDepth(CaseOrdered, "visit", 2) == BothOrdered;
    assert ["visit"][1..] == [];
    DrainStep(CaseVisit, State(CaseOrdered, ["visit"]), State(BothOrdered, []), fuel);
  }

  lemma CaseVisitSeedOf()
    ensures SeedOf(CaseVisit, "P", "temp_P_visit.tsv", "temp", "tsv") == Some("visit")
    ensures SeedOf(CaseVisit, "P", "temp_P_case.tsv", "temp", "tsv") == Some("case")
  {
    CaseVisitNodes();
    var v, c := "temp_P_visit.tsv", "temp_P_case.tsv";
    assert v[..4] == "temp" && v[|v| - 3..] == "tsv";
    assert c[..4] == "temp" && c[|c| - 3..] == "tsv";
  }

  /** Two file names give their two nodes in file order. */
  lemma TwoSeeds(dd: Dictionary, f: string, g: string, x: string, y: string)
    requires SeedOf(dd, "P", f, "temp", "tsv") == Some(x) && SeedOf(dd, "P", g, "temp", "tsv") == Some(y)
    ensures Seeds(dd, "P", [f, g], "temp", "tsv") == [x, y]
  {
    assert [f, g][..1] == [f] && [f][..0] == [];
    assert Seeds(dd, "P", [f], "temp", "tsv") == [x];
  }

  /** Case, linked to project, is ordered before visit, linked to case, whatever order the files come in. */
  lemma CaseVisitInAnyOrder(fuel: nat)
    requires fuel >= 3
    ensures SubmissionOrderSpec(CaseVisit, "P", ["temp_P_visit.tsv", "temp_P_case.tsv"], "temp", "tsv", fuel) == Some([("case", 1), ("visit", 2)])
    ensures SubmissionOrderSpec(CaseVisit, "P", ["temp_P_case.tsv", "temp_P_visit.tsv"], "temp", "tsv", fuel) == Some([("case", 1), ("visit", 2)])
  {
    CaseVisitSeedOf();
    TwoSeeds(CaseVisit, "temp_P_visit.tsv", "temp_P_case.tsv", "visit", "case");
    TwoSeeds(CaseVisit, "temp_P_case.tsv", "temp_P_visit.tsv", "case", "visit");
    VisitRequeued(fuel);
    CaseOrderedFirst(fuel - 1);
    CaseOrderedFirst(fuel);
    VisitOrderedNext(fuel - 2);
    VisitOrderedNext(fuel - 1);
    BothSorted();
  }

  lemma BothSorted()
    ensures SortByDepth(Items(BothOrdered)) == [("case", 1), ("visit", 2)]
  {
    var items: seq<(string, nat)> := [("case", 1), ("visit", 2)];
    var o := Items(BothOrdered);
    assert o[0] == items[0] && o[1] == items[1];
    assert o == items;
    SortSorted(items);
  }
}
