/** Relationship chains of a case (backend/app/case_intelligence/relationships.py): items with the
    same hash, and rows with the same creator, are linked one to the next. */
module CaseRelationships {
  import opened Bags
  import opened CaseCollection
  import opened CaseModel
  import opened Dedup
  import opened Sorting
  import opened Text
  import Groups = CorrelationGroups
  import Model = CorrelationModel
  import Engine = CorrelationEngine
  import Theorems = CorrelationTheorems

  // ----- chains --------------------------------------------------------------------------

  /** A row of a chain: what it is grouped by, and whether its links are reported. */
  datatype Node = Node(id: Uuid, key: string, listed: bool)

  type Edge = (Uuid, Uuid)

  function HasKey(key: string): Node -> bool { (node: Node) => node.key == key }

  function Members(nodes: seq<Node>, key: string): seq<Node> { Keep(nodes, HasKey(key)) }

  function LinkOf(x: Node, y: Node): seq<Edge> {
    if x.listed && y.listed then [(x.id, y.id)] else []
  }

  /** Each row of a group linked to the next. */
  function Links(group: seq<Node>): seq<Edge> {
    var n := |group|;
    if n < 2 then [] else Links(group[..n - 1]) + LinkOf(group[n - 2], group[n - 1])
  }

  /** The links of all groups, group by group. */
  function ChainLinks(nodes: seq<Node>, keys: seq<string>): seq<Edge> {
    if keys == [] then []
    else ChainLinks(nodes, keys[..|keys| - 1]) + Links(Members(nodes, keys[|keys| - 1]))
  }

  /** The keys in use, ascending. */
  ghost predicate IsKeyOrder(nodes: seq<Node>, keys: seq<string>) {
    && Ascending(keys, Le) && Distinct(keys)
    && forall key :: key in keys <==> Members(nodes, key) != []
  }

  method GroupNodes(nodes: seq<Node>) returns (groups: map<string, seq<Node>>)
    ensures forall key :: key in groups <==> Members(nodes, key) != []
    ensures forall key :: key in groups ==> groups[key] == Members(nodes, key)
  {
    groups := map[];
    for i := 0 to |nodes|
      invariant forall key :: key in groups <==> Members(nodes[..i], key) != []
      invariant forall key :: key in groups ==> groups[key] == Members(nodes[..i], key)
    {
      forall key ensures Members(nodes[..i + 1], key) == Members(nodes[..i], key) + if nodes[i].key == key then [nodes[i]] else [] {
        KeepNext(nodes, i, HasKey(key));
      }
      var held := if nodes[i].key in groups then groups[nodes[i].key] else [];
      groups := groups[nodes[i].key := held + [nodes[i]]];
    }
    assert nodes[..|nodes|] == nodes;
  }

  method LinkGroup(items: seq<Node>, before: seq<Edge>) returns (edges: seq<Edge>)
    requires |items| >= 2
    ensures edges == before + Links(items)
  {
    edges := before;
    for index := 0 to |items| - 1
      invariant edges == before + Links(items[..index + 1])
    {
      assert items[..index + 2][..index + 1] == items[..index + 1];
      var left, right := items[index], items[index + 1];
      if !left.listed || !right.listed {
        continue;
      }
      edges := edges + [(left.id, right.id)];
    }
    assert items[..|items|] == items;
  }

  /** The links of all chains, in the order of their keys. */
  ghost predicate AreChains(nodes: seq<Node>, edges: seq<Edge>) {
    exists keys :: IsKeyOrder(nodes, keys) && edges == ChainLinks(nodes, keys)
  }

  method LinkGroups(nodes: seq<Node>) returns (edges: seq<Edge>)
    ensures AreChains(nodes, edges)
  {
    var groups := GroupNodes(nodes);
    var order := Groups.SortStrings(groups.Keys);
    edges := [];
    for n := 0 to |order|
      invariant edges == ChainLinks(nodes, order[..n])
    {
      assert order[..n + 1][..n] == order[..n];
      assert order[n] in groups;
      var items := groups[order[n]];
      if |items| >= 2 {
        edges := LinkGroup(items, edges);
      }
    }
    assert order[..|order|] == order;
    assert IsKeyOrder(nodes, order);
  }

  // ----- how many links ------------------------------------------------------------------

  lemma {:induction false} LinksCount(group: seq<Node>)
    requires forall i :: 0 <= i < |group| ==> group[i].listed
    ensures |Links(group)| == if group == [] then 0 else |group| - 1
  {
    if |group| >= 2 {
      LinksCount(group[..|group| - 1]);
    }
  }

  function KeyedIn(keys: seq<string>): Node -> bool { (node: Node) => node.key in keys }

  lemma {:induction false} KeepEither(nodes: seq<Node>, keys: seq<string>, key: string)
    requires key !in keys
    ensures Count(nodes, KeyedIn(keys + [key])) == Count(nodes, KeyedIn(keys)) + |Members(nodes, key)|
  {
    if nodes != [] {
      KeepEither(nodes[1..], keys, key);
    }
  }

  lemma {:induction false} ChainCount(nodes: seq<Node>, keys: seq<string>)
    requires forall i :: 0 <= i < |nodes| ==> nodes[i].listed
    requires Distinct(keys) && forall key :: key in keys ==> Members(nodes, key) != []
    ensures |ChainLinks(nodes, keys)| == Count(nodes, KeyedIn(keys)) - |keys|
  {
    if keys == [] {
      NoneKept(nodes);
    } else {
      var n := |keys| - 1;
      var key := keys[n];
      assert keys == keys[..n] + [key];
      ChainCount(nodes, keys[..n]);
      KeepEither(nodes, keys[..n], key);
      KeepMembers(nodes, HasKey(key));
      forall i | 0 <= i < |Members(nodes, key)| ensures Members(nodes, key)[i].listed {
        assert Members(nodes, key)[i] in nodes;
      }
      LinksCount(Members(nodes, key));
    }
  }

  lemma NoneKept(nodes: seq<Node>)
    ensures Count(nodes, KeyedIn([])) == 0
  {
    CountPositive(nodes, KeyedIn([]));
  }

  // ----- what the links connect ----------------------------------------------------------

  ghost predicate Adjacent(edges: seq<Edge>, x: Uuid, y: Uuid) {
    (x, y) in edges || (y, x) in edges
  }

  ghost predicate Path(edges: seq<Edge>, p: seq<Uuid>) {
    p != [] && forall i :: 0 <= i < |p| - 1 ==> Adjacent(edges, p[i], p[i + 1])
  }

  ghost predicate PathFrom(edges: seq<Edge>, a: Uuid, b: Uuid, p: seq<Uuid>) {
    Path(edges, p) && p[0] == a && p[|p| - 1] == b
  }

  ghost predicate Connected(edges: seq<Edge>, a: Uuid, b: Uuid) {
    exists p :: PathFrom(edges, a, b, p)
  }

  ghost predicate DistinctNodes(nodes: seq<Node>) {
    forall i, j :: 0 <= i < j < |nodes| ==> nodes[i].id != nodes[j].id
  }

  /** Every row of the group from position `i` to position `j`, in either direction, is reported. */
  ghost predicate Unbroken(group: seq<Node>, i: int, j: int) {
    i == j || forall x :: 0 <= x < |group| && (i <= x <= j || j <= x <= i) ==> group[x].listed
  }

  ghost predicate At(group: seq<Node>, i: int, node: Node) { 0 <= i < |group| && group[i] == node }

  lemma {:induction false} LinksAre(group: seq<Node>, e: Edge)
    ensures e in Links(group) <==> exists i :: LinkAt(group, i, e)
  {
    var n := |group|;
    if n >= 2 {
      LinksAre(group[..n - 1], e);
      if i :| LinkAt(group, i, e) {
        assert i < n - 2 ==> LinkAt(group[..n - 1], i, e);
      }
      var shorter := group[..n - 1];
      if i :| LinkAt(shorter, i, e) {
        assert LinkAt(group, i, e);
      }
      if e in LinkOf(group[n - 2], group[n - 1]) {
        assert LinkAt(group, n - 2, e);
      }
    }
  }

  ghost predicate LinkAt(group: seq<Node>, i: int, e: Edge) {
    0 <= i < |group| - 1 && group[i].listed && group[i + 1].listed && e == (group[i].id, group[i + 1].id)
  }

  lemma {:induction false} ChainLinksAre(nodes: seq<Node>, keys: seq<string>, e: Edge)
    ensures e in ChainLinks(nodes, keys) <==> exists key :: key in keys && e in Links(Members(nodes, key))
  {
    if keys != [] {
      var n := |keys| - 1;
      ChainLinksAre(nodes, keys[..n], e);
      assert keys == keys[..n] + [keys[n]];
    }
  }

  /** Where a link sits: two neighbours of one group. */
  lemma LinkPlace(nodes: seq<Node>, keys: seq<string>, e: Edge) returns (key: string, i: int)
    requires e in ChainLinks(nodes, keys)
    ensures LinkAt(Members(nodes, key), i, e)
  {
    ChainLinksAre(nodes, keys, e);
    key :| key in keys && e in Links(Members(nodes, key));
    LinksAre(Members(nodes, key), e);
    i :| LinkAt(Members(nodes, key), i, e);
  }

  lemma LinkIsChained(nodes: seq<Node>, keys: seq<string>, key: string, i: int, e: Edge)
    requires key in keys && LinkAt(Members(nodes, key), i, e)
    ensures e in ChainLinks(nodes, keys)
  {
    LinksAre(Members(nodes, key), e);
    ChainLinksAre(nodes, keys, e);
  }

  lemma {:induction false} MembersDistinct(nodes: seq<Node>, key: string)
    requires DistinctNodes(nodes)
    ensures DistinctNodes(Members(nodes, key))
  {
    if nodes != [] {
      MembersDistinct(nodes[1..], key);
      KeepMembers(nodes[1..], HasKey(key));
      var rest := Members(nodes[1..], key);
      forall j | 0 <= j < |rest| ensures rest[j].id != nodes[0].id {
        assert rest[j] in nodes[1..];
      }
    }
  }

  lemma SameNode(nodes: seq<Node>, x: Node, y: Node)
    requires DistinctNodes(nodes) && x in nodes && y in nodes && x.id == y.id
    ensures x == y
  {}

  /** Links run inside a group: from one of its positions they lead to a neighbouring one. */
  lemma StepInGroup(nodes: seq<Node>, keys: seq<string>, key: string, m: int, y: Uuid) returns (l: int)
    requires DistinctNodes(nodes) && 0 <= m < |Members(nodes, key)|
    requires Adjacent(ChainLinks(nodes, keys), Members(nodes, key)[m].id, y)
    ensures var g := Members(nodes, key);
            0 <= l < |g| && (l == m + 1 || l == m - 1) && g[l].id == y && g[l].listed && g[m].listed
  {
    var g := Members(nodes, key);
    var x := g[m].id;
    KeepMembers(nodes, HasKey(key));
    MembersDistinct(nodes, key);
    assert g[m] in g;
    if (x, y) in ChainLinks(nodes, keys) {
      var other, i := LinkPlace(nodes, keys, (x, y));
      SharedPlace(nodes, key, m, other, i);
      l := i + 1;
    } else {
      var other, i := LinkPlace(nodes, keys, (y, x));
      SharedPlace(nodes, key, m, other, i + 1);
      l := i;
    }
  }

  lemma SharedPlace(nodes: seq<Node>, key: string, m: int, other: string, i: int)
    requires DistinctNodes(nodes) && 0 <= m < |Members(nodes, key)| && 0 <= i < |Members(nodes, other)|
    requires Members(nodes, key)[m].id == Members(nodes, other)[i].id
    ensures key == other && m == i
  {
    KeepMembers(nodes, HasKey(key));
    KeepMembers(nodes, HasKey(other));
    MembersDistinct(nodes, key);
    assert Members(nodes, key)[m] in Members(nodes, key) && Members(nodes, other)[i] in Members(nodes, other);
    SameNode(nodes, Members(nodes, key)[m], Members(nodes, other)[i]);
  }

  /** No path leaves its group or steps over a row that is not reported. */
  lemma {:induction false} PathStays(nodes: seq<Node>, keys: seq<string>, key: string, i: int, p: seq<Uuid>) returns (m: int)
    requires DistinctNodes(nodes) && 0 <= i < |Members(nodes, key)|
    requires Path(ChainLinks(nodes, keys), p) && p[0] == Members(nodes, key)[i].id
    ensures 0 <= m < |Members(nodes, key)| && Members(nodes, key)[m].id == p[|p| - 1]
    ensures Unbroken(Members(nodes, key), i, m)
    decreases |p|
  {
    if |p| == 1 {
      m := i;
    } else {
      var n := |p| - 1;
      var l := PathStays(nodes, keys, key, i, p[..n]);
      assert Adjacent(ChainLinks(nodes, keys), p[n - 1], p[n]);
      m := StepInGroup(nodes, keys, key, l, p[n]);
    }
  }

  lemma OneFurther(edges: seq<Edge>, a: Uuid, b: Uuid, c: Uuid)
    requires Connected(edges, a, b) && Adjacent(edges, b, c)
    ensures Connected(edges, a, c)
  {
    var p :| PathFrom(edges, a, b, p);
    assert PathFrom(edges, a, c, p + [c]);
  }

  /** Along reported rows there is a path. */
  lemma {:induction false} PathAlong(nodes: seq<Node>, keys: seq<string>, key: string, i: int, j: int)
    requires key in keys && 0 <= i < |Members(nodes, key)| && 0 <= j < |Members(nodes, key)|
    requires Unbroken(Members(nodes, key), i, j)
    ensures Connected(ChainLinks(nodes, keys), Members(nodes, key)[i].id, Members(nodes, key)[j].id)
    decreases if i <= j then j - i else i - j
  {
    var g, edges := Members(nodes, key), ChainLinks(nodes, keys);
    if i == j {
      assert PathFrom(edges, g[i].id, g[i].id, [g[i].id]);
    } else {
      var l := if i < j then j - 1 else j + 1;
      var first := if i < j then l else j;
      PathAlong(nodes, keys, key, i, l);
      LinkIsChained(nodes, keys, key, first, (g[first].id, g[first + 1].id));
      OneFurther(edges, g[i].id, g[l].id, g[j].id);
    }
  }

  /** Two rows are connected exactly when they have the same key and every row of the group from
      one to the other is reported. */
  lemma ChainsConnect(nodes: seq<Node>, keys: seq<string>, a: Node, b: Node)
    requires DistinctNodes(nodes) && IsKeyOrder(nodes, keys) && a in nodes && b in nodes
    ensures Connected(ChainLinks(nodes, keys), a.id, b.id) <==>
            exists i, j :: At(Members(nodes, a.key), i, a) && At(Members(nodes, a.key), j, b) && Unbroken(Members(nodes, a.key), i, j)
  {
    var g, edges := Members(nodes, a.key), ChainLinks(nodes, keys);
    KeepMembers(nodes, HasKey(a.key));
    MembersDistinct(nodes, a.key);
    assert a in g;
    var i :| 0 <= i < |g| && g[i] == a;
    if p :| PathFrom(edges, a.id, b.id, p) {
      var m := PathStays(nodes, keys, a.key, i, p);
      assert g[m] in g;
      SameNode(nodes, g[m], b);
      assert At(g, i, a) && At(g, m, b) && Unbroken(g, i, m);
    }
    if k, j :| At(g, k, a) && At(g, j, b) && Unbroken(g, k, j) {
      PathAlong(nodes, keys, a.key, k, j);
    }
  }

  /** With every row reported, connection is having the same key, and there are as many links as
      rows less groups: the chains are a spanning forest. */
  lemma SpanningForest(nodes: seq<Node>, keys: seq<string>)
    requires IsKeyOrder(nodes, keys) && forall i :: 0 <= i < |nodes| ==> nodes[i].listed
    ensures |ChainLinks(nodes, keys)| == |nodes| - |keys|
    ensures DistinctNodes(nodes) ==>
              forall a, b :: a in nodes && b in nodes ==> (Connected(ChainLinks(nodes, keys), a.id, b.id) <==> a.key == b.key)
  {
    ChainCount(nodes, keys);
    forall i | 0 <= i < |nodes| ensures KeyedIn(keys)(nodes[i]) {
      KeepMembers(nodes, HasKey(nodes[i].key));
      assert nodes[i] in Members(nodes, nodes[i].key);
    }
    KeepAll(nodes, KeyedIn(keys));
    if DistinctNodes(nodes) {
      forall a, b | a in nodes && b in nodes
        ensures Connected(ChainLinks(nodes, keys), a.id, b.id) <==> a.key == b.key
      {
        ReportedConnect(nodes, keys, a, b);
      }
    }
  }

  lemma ReportedConnect(nodes: seq<Node>, keys: seq<string>, a: Node, b: Node)
    requires IsKeyOrder(nodes, keys) && DistinctNodes(nodes) && a in nodes && b in nodes
    requires forall i :: 0 <= i < |nodes| ==> nodes[i].listed
    ensures Connected(ChainLinks(nodes, keys), a.id, b.id) <==> a.key == b.key
  {
    var g := Members(nodes, a.key);
    ChainsConnect(nodes, keys, a, b);
    KeepMembers(nodes, HasKey(a.key));
    assert a in g;
    forall x | 0 <= x < |g| ensures g[x].listed {
      assert g[x] in g;
    }
    if a.key == b.key {
      assert b in g;
      var i :| 0 <= i < |g| && g[i] == a;
      var j :| 0 <= j < |g| && g[j] == b;
      assert At(g, i, a) && At(g, j, b) && Unbroken(g, i, j);
    }
    if j :| At(g, j, b) {
      assert g[j] in g;
    }
  }

  // ----- the two chains of a case --------------------------------------------------------

  function HashNodes(items: seq<Participation>): seq<Node> {
    Each(items, (item: Participation) => Node(item.id, item.hash, true))
  }

  ghost predicate DistinctItems(items: seq<Participation>) {
    forall i, j :: 0 <= i < j < |items| ==> items[i].id != items[j].id
  }

  /** As many duplicate links as items less distinct hashes, and two items are connected exactly
      when their hashes are equal. */
  lemma HashChains(items: seq<Participation>, keys: seq<string>)
    requires IsKeyOrder(HashNodes(items), keys)
    ensures |ChainLinks(HashNodes(items), keys)| == |items| - |set item | item in items :: item.hash|
    ensures DistinctItems(items) ==>
              forall a, b :: a in items && b in items ==>
                (Connected(ChainLinks(HashNodes(items), keys), a.id, b.id) <==> a.hash == b.hash)
  {
    var nodes := HashNodes(items);
    SpanningForest(nodes, keys);
    KeysCounted(nodes, keys);
    KeysAreHashes(items);
    if DistinctItems(items) {
      assert DistinctNodes(nodes);
      forall a, b | a in items && b in items
        ensures Connected(ChainLinks(nodes, keys), a.id, b.id) <==> a.hash == b.hash
      {
        var i :| 0 <= i < |items| && items[i] == a;
        var j :| 0 <= j < |items| && items[j] == b;
        assert nodes[i] in nodes && nodes[j] in nodes;
      }
    }
  }

  /** The keys of some rows. */
  function KeySet(nodes: seq<Node>): set<string> { set node | node in nodes :: node.key }

  lemma KeysCounted(nodes: seq<Node>, keys: seq<string>)
    requires IsKeyOrder(nodes, keys)
    ensures |keys| == |KeySet(nodes)|
  {
    forall key ensures key in keys <==> key in KeySet(nodes) {
      KeepMembers(nodes, HasKey(key));
      if key in keys {
        var node := Members(nodes, key)[0];
        assert node in Members(nodes, key);
      }
      if key in KeySet(nodes) {
        var node :| node in nodes && node.key == key;
        assert node in Members(nodes, key);
      }
    }
    DistinctSize(keys, (s: string) => s);
    assert Ids(keys, (s: string) => s) == KeySet(nodes);
  }

  lemma KeysAreHashes(items: seq<Participation>)
    ensures KeySet(HashNodes(items)) == set item | item in items :: item.hash
  {
    var nodes := HashNodes(items);
    forall item | item in items ensures item.hash in KeySet(nodes) {
      var i :| 0 <= i < |items| && items[i] == item;
      assert nodes[i] in nodes;
    }
    forall key | key in KeySet(nodes) ensures key in (set item | item in items :: item.hash) {
      var node :| node in nodes && node.key == key;
      var i :| 0 <= i < |nodes| && nodes[i] == node;
      assert items[i] in items;
    }
  }

  /** The chains and the correlation engine agree: two different items with a hash are connected
      by duplicate links exactly when the engine reports them as having the same hash. */
  lemma ClosureIsSameHash(items: seq<Participation>, keys: seq<string>, signals: seq<Model.Signals>,
                          out: seq<Model.Correlation>, i: nat, j: nat)
    requires DistinctItems(items) && IsKeyOrder(HashNodes(items), keys)
    requires |signals| == |items|
    requires forall n :: 0 <= n < |items| ==> signals[n].id == items[n].id && signals[n].hash == items[n].hash
    requires Engine.IsOutput(signals, out)
    requires i < |items| && j < |items| && i != j && items[i].hash != ""
    ensures Connected(ChainLinks(HashNodes(items), keys), items[i].id, items[j].id) <==>
            exists c :: Theorems.Reports(out, Model.SameHash, items[i].id, items[j].id, c)
  {
    HashChains(items, keys);
    assert items[i] in items && items[j] in items;
    assert Model.DistinctIds(signals);
    Theorems.ExactKindCharacterized(signals, out, Model.SameHash, signals[i], signals[j]);
    assert items[i].hash in Model.Values(Model.SameHash, signals[i]);
  }

  predicate Holds(v: Json) { v.Truthy? || (v.Text? && v.s != "") }

  /** The folded creator a row is grouped by. */
  function CreatorOf(row: Row): string {
    var v := if Holds(row.creator) then row.creator else row.author;
    if v.Text? then LowerAll(Strip(v.s)) else ""
  }

  predicate HasCreator(row: Row) { CreatorOf(row) != "" }

  function CreatorNodes(rows: seq<Row>, ids: set<Uuid>): seq<Node> {
    Each(Keep(rows, HasCreator), (row: Row) => Node(row.id, CreatorOf(row), row.id in ids))
  }

  function ParticipantIds(items: seq<Participation>): set<Uuid> { set item | item in items :: item.id }

  ghost predicate DistinctRows(rows: seq<Row>) {
    forall i, j :: 0 <= i < j < |rows| ==> rows[i].id != rows[j].id
  }

  lemma CreatorNodesDistinct(rows: seq<Row>, ids: set<Uuid>)
    requires DistinctRows(rows)
    ensures DistinctNodes(CreatorNodes(rows, ids))
  {
    KeepDistinctRows(rows, HasCreator);
  }

  lemma {:induction false} KeepDistinctRows(rows: seq<Row>, p: Row -> bool)
    requires DistinctRows(rows)
    ensures DistinctRows(Keep(rows, p))
  {
    if rows != [] {
      var kept := Keep(rows[1..], p);
      KeepDistinctRows(rows[1..], p);
      KeepMembers(rows[1..], p);
      forall j | 0 <= j < |kept| ensures kept[j].id != rows[0].id {
        assert kept[j] in rows[1..];
      }
    }
  }

  /** The node of a row that takes part is in the chain. */
  lemma CreatorNode(rows: seq<Row>, ids: set<Uuid>, row: Row)
    requires row in rows && HasCreator(row) && row.id in ids
    ensures Node(row.id, CreatorOf(row), true) in CreatorNodes(rows, ids)
  {
    var kept := Keep(rows, HasCreator);
    KeepMembers(rows, HasCreator);
    assert row in kept;
    var i :| 0 <= i < |kept| && kept[i] == row;
    assert CreatorNodes(rows, ids)[i] == Node(row.id, CreatorOf(row), true);
  }

  lemma CreatorKeys(rows: seq<Row>, ids: set<Uuid>)
    ensures KeySet(CreatorNodes(rows, ids)) == set row | row in rows && HasCreator(row) :: CreatorOf(row)
  {
    var nodes, kept := CreatorNodes(rows, ids), Keep(rows, HasCreator);
    KeepMembers(rows, HasCreator);
    forall row | row in rows && HasCreator(row) ensures CreatorOf(row) in KeySet(nodes) {
      assert row in kept;
      var i :| 0 <= i < |kept| && kept[i] == row;
      assert nodes[i] in nodes;
    }
    forall key | key in KeySet(nodes) ensures exists row :: row in rows && HasCreator(row) && CreatorOf(row) == key {
      var node :| node in nodes && node.key == key;
      var i :| 0 <= i < |nodes| && nodes[i] == node;
      assert kept[i] in kept;
    }
  }

  /** Both reads of the case see the same rows, so every row takes part. */
  lemma AllTakePart(rows: seq<Row>, collected: seq<Row>, row: Row)
    requires multiset(rows) == multiset(collected) && row in rows
    ensures row.id in ParticipantIds(Collected(collected))
  {
    PermutedMembers(rows, collected);
    assert row in collected;
    ParticipantsAre(collected);
  }

  lemma ParticipantsAre(rows: seq<Row>)
    ensures ParticipantIds(Collected(rows)) == set row | row in rows :: row.id
  {
    var items := Collected(rows);
    forall i | 0 <= i < |rows| ensures items[i].id == rows[i].id && rows[i].id in ParticipantIds(items) {
      assert items[i] == Participate(rows[i]) && items[i] in items;
    }
    forall id | id in ParticipantIds(items) ensures exists row :: row in rows && row.id == id {
      var i :| 0 <= i < |items| && items[i].id == id;
      assert rows[i] in rows;
    }
  }

  /** Creator chains of a case whose participations were collected from the same rows, in whatever
      order either read returned them: as many links as rows with a creator less creators, and two
      such rows are connected exactly when they have the same creator. */
  lemma CreatorChains(rows: seq<Row>, collected: seq<Row>, edges: seq<Edge>)
    requires multiset(rows) == multiset(collected)
    requires AreChains(CreatorNodes(rows, ParticipantIds(Collected(collected))), edges)
    ensures |edges| == Count(rows, HasCreator) - |set row | row in rows && HasCreator(row) :: CreatorOf(row)|
    ensures DistinctRows(rows) ==>
              forall a, b :: a in rows && b in rows && HasCreator(a) && HasCreator(b) ==>
                (Connected(edges, a.id, b.id) <==> CreatorOf(a) == CreatorOf(b))
  {
    var ids := ParticipantIds(Collected(collected));
    var nodes, kept := CreatorNodes(rows, ids), Keep(rows, HasCreator);
    var keys :| IsKeyOrder(nodes, keys) && edges == ChainLinks(nodes, keys);
    KeepMembers(rows, HasCreator);
    forall i | 0 <= i < |nodes| ensures nodes[i].listed {
      assert kept[i] in kept;
      AllTakePart(rows, collected, kept[i]);
    }
    SpanningForest(nodes, keys);
    KeysCounted(nodes, keys);
    CreatorKeys(rows, ids);
    if DistinctRows(rows) {
      CreatorNodesDistinct(rows, ids);
      forall a, b | a in rows && b in rows && HasCreator(a) && HasCreator(b)
        ensures Connected(edges, a.id, b.id) <==> CreatorOf(a) == CreatorOf(b)
      {
        AllTakePart(rows, collected, a);
        AllTakePart(rows, collected, b);
        CreatorNode(rows, ids, a);
        CreatorNode(rows, ids, b);
      }
    }
  }

  /** Only a row added between the two reads can break a chain: two rows with the same creator are
      then not connected when the new one lies between them. */
  lemma NewRowBreaksChain(a: Row, b: Row, c: Row, keys: seq<string>)
    requires a.id != b.id && b.id != c.id && a.id != c.id
    requires CreatorOf(a) == CreatorOf(b) == CreatorOf(c) != ""
    requires IsKeyOrder(CreatorNodes([a, b, c], ParticipantIds(Collected([a, c]))), keys)
    ensures !Connected(ChainLinks(CreatorNodes([a, b, c], ParticipantIds(Collected([a, c]))), keys), a.id, c.id)
  {
    var ids := ParticipantIds(Collected([a, c]));
    ParticipantsAre([a, c]);
    assert a in [a, c] && c in [a, c];
    assert ids == {a.id, c.id};
    var nodes, key := CreatorNodes([a, b, c], ids), CreatorOf(a);
    KeepAll([a, b, c], HasCreator);
    var x, y, z := Node(a.id, key, true), Node(b.id, key, false), Node(c.id, key, true);
    assert nodes == [x, y, z];
    KeepAll(nodes, HasKey(key));
    ChainsConnect(nodes, keys, x, z);
    forall i, j | At(nodes, i, x) && At(nodes, j, z) ensures !Unbroken(nodes, i, j) {
      assert i == 0 && j == 2 && !nodes[1].listed;
    }
  }

  // ----- which rows are linked -----------------------------------------------------------

  /** Rows `i` and `j` are reported, have the key, and no row between them has it. */
  ghost predicate NextOf(nodes: seq<Node>, key: string, i: int, j: int) {
    && 0 <= i < j < |nodes| && nodes[i].key == key && nodes[j].key == key && nodes[i].listed && nodes[j].listed
    && forall k :: i < k < j ==> nodes[k].key != key
  }

  ghost predicate Follows(nodes: seq<Node>, key: string, a: Uuid, b: Uuid) {
    exists i, j :: NextOf(nodes, key, i, j) && nodes[i].id == a && nodes[j].id == b
  }

  lemma MembersNext(nodes: seq<Node>, x: Node, key: string)
    ensures Members(nodes + [x], key) == Members(nodes, key) + if x.key == key then [x] else []
  {
    KeepSplit(nodes, [x], HasKey(key));
    assert [x][1..] == [];
  }

  /** The last row of a group is the last one that has the key. */
  lemma {:induction false} LastOfGroup(nodes: seq<Node>, key: string) returns (i: int)
    ensures if Members(nodes, key) == [] then forall k :: 0 <= k < |nodes| ==> nodes[k].key != key
            else 0 <= i < |nodes| && nodes[i] == Members(nodes, key)[|Members(nodes, key)| - 1] && nodes[i].key == key
                 && forall k :: i < k < |nodes| ==> nodes[k].key != key
  {
    i := -1;
    if nodes != [] {
      var n := |nodes| - 1;
      assert nodes == nodes[..n] + [nodes[n]];
      MembersNext(nodes[..n], nodes[n], key);
      if nodes[n].key == key {
        i := n;
      } else {
        i := LastOfGroup(nodes[..n], key);
      }
    }
  }

  lemma FollowsNext(nodes: seq<Node>, x: Node, key: string, a: Uuid, b: Uuid)
    ensures Follows(nodes + [x], key, a, b) <==>
              Follows(nodes, key, a, b) || exists i :: NextOf(nodes + [x], key, i, |nodes|) && nodes[i].id == a && x.id == b
  {
    var more := nodes + [x];
    assert forall k :: 0 <= k < |nodes| ==> more[k] == nodes[k];
    if i, j :| NextOf(more, key, i, j) && more[i].id == a && more[j].id == b {
      if j < |nodes| {
        assert forall k :: i < k < j ==> more[k].key != key;
        assert NextOf(nodes, key, i, j);
      }
    }
    if i, j :| NextOf(nodes, key, i, j) && nodes[i].id == a && nodes[j].id == b {
      assert NextOf(more, key, i, j);
    }
    if i :| NextOf(more, key, i, |nodes|) && nodes[i].id == a && x.id == b {
      assert more[|nodes|] == x;
    }
  }

  lemma LinksNext(group: seq<Node>, x: Node)
    ensures Links(group + [x]) == Links(group) + if group == [] then [] else LinkOf(group[|group| - 1], x)
  {
    assert (group + [x])[..|group|] == group;
  }

  lemma {:induction false} GroupFollows(nodes: seq<Node>, key: string, a: Uuid, b: Uuid)
    ensures (a, b) in Links(Members(nodes, key)) <==> Follows(nodes, key, a, b)
  {
    if nodes != [] {
      var n := |nodes| - 1;
      var before, x := nodes[..n], nodes[n];
      assert nodes == before + [x];
      GroupFollows(before, key, a, b);
      MembersNext(before, x, key);
      FollowsNext(before, x, key, a, b);
      var last := LastOfGroup(before, key);
      if x.key == key {
        LinksNext(Members(before, key), x);
        LastLinked(before, x, key, a, b, last);
      } else {
        assert forall i :: !NextOf(before + [x], key, i, |before|);
        assert Members(before, key) + [] == Members(before, key);
      }
    }
  }

  lemma LastLinked(before: seq<Node>, x: Node, key: string, a: Uuid, b: Uuid, last: int)
    requires x.key == key
    requires if Members(before, key) == [] then forall k :: 0 <= k < |before| ==> before[k].key != key
             else 0 <= last < |before| && before[last] == Members(before, key)[|Members(before, key)| - 1] && before[last].key == key
                  && forall k :: last < k < |before| ==> before[k].key != key
    ensures (exists i :: NextOf(before + [x], key, i, |before|) && before[i].id == a && x.id == b) <==>
              Members(before, key) != [] && (a, b) in LinkOf(Members(before, key)[|Members(before, key)| - 1], x)
  {
    var more := before + [x];
    if i :| NextOf(more, key, i, |before|) && before[i].id == a && x.id == b {
      assert more[i] == before[i] && before[i].key == key;
      assert more[last] == before[last] && more[last].key == key;
      assert i == last;
    }
    if Members(before, key) != [] && (a, b) in LinkOf(before[last], x) {
      assert more[last] == before[last] && more[|before|] == x;
      assert NextOf(more, key, last, |before|);
    }
  }

  lemma {:induction false} InSomeGroup(nodes: seq<Node>, keys: seq<string>, a: Uuid, b: Uuid)
    ensures (a, b) in ChainLinks(nodes, keys) <==> exists key :: key in keys && (a, b) in Links(Members(nodes, key))
  {
    if keys != [] {
      var n := |keys| - 1;
      InSomeGroup(nodes, keys[..n], a, b);
      assert forall key :: key in keys <==> key in keys[..n] || key == keys[n];
    }
  }

  /** The links, read off the rows: from a reported row to the next one with the same key, if that one
      is reported too, in the order of the rows. */
  lemma LinksAreNextRows(nodes: seq<Node>, keys: seq<string>, a: Uuid, b: Uuid)
    requires IsKeyOrder(nodes, keys)
    ensures (a, b) in ChainLinks(nodes, keys) <==> exists key :: Follows(nodes, key, a, b)
  {
    InSomeGroup(nodes, keys, a, b);
    forall key ensures (a, b) in Links(Members(nodes, key)) <==> Follows(nodes, key, a, b) {
      GroupFollows(nodes, key, a, b);
    }
  }

  // ----- the list of relationships -------------------------------------------------------

  /** A relationship, by what its identifier is made from. */
  datatype Relationship =
    | DuplicateHash(left: Uuid, right: Uuid)
    | SharedMetadata(left: Uuid, right: Uuid)
    | ComparisonLink(run: Uuid, left: Uuid, right: Uuid)
    | SignatureLink(run: Uuid, left: Uuid, right: Uuid)
    | SharedFilename(left: Uuid, right: Uuid)

  function RelationshipId(r: Relationship): string {
    match r
    case DuplicateHash(left, right) => "duplicate_hash:" + left + ":" + right
    case SharedMetadata(left, right) => "shared_metadata:" + left + ":" + right + ":creator"
    case ComparisonLink(run, _, _) => "comparison:" + run
    case SignatureLink(run, _, _) => "signature:" + run
    case SharedFilename(left, right) => "shared_filename:" + left + ":" + right
  }

  predicate IsChain(r: Relationship) { r.DuplicateHash? || r.SharedMetadata? }

  /** What comes before the identifiers, and where they end. */
  lemma ChainId(r: Relationship, text: string)
    requires IsChain(r) && text == RelationshipId(r)
    ensures r.DuplicateHash? ==> |text| == 88 && text[0] == 'd' && text[15..51] == r.left && text[52..88] == r.right
    ensures r.SharedMetadata? ==>
              |text| == 97 && text[0] == 's' && text[7] == 'm' && text[16..52] == r.left && text[53..89] == r.right
  {}

  lemma OtherId(r: Relationship, text: string)
    requires !IsChain(r) && text == RelationshipId(r)
    ensures |text| >= 8 && text[0] != 'd' && (text[0] == 's' ==> text[7] != 'm')
  {}

  /** A chain link shares its identifier with no other relationship. */
  lemma ChainIdUnique(r: Relationship, s: Relationship)
    requires IsChain(r) && RelationshipId(r) == RelationshipId(s)
    ensures r == s
  {
    ChainId(r, RelationshipId(r));
    if IsChain(s) {
      ChainId(s, RelationshipId(s));
    } else {
      OtherId(s, RelationshipId(s));
    }
  }

  /** Exactly these chain links are in the list. */
  ghost predicate HoldsChains(relationships: seq<Relationship>, duplicates: seq<Edge>, metadata: seq<Edge>) {
    && (forall a, b :: DuplicateHash(a, b) in relationships <==> (a, b) in duplicates)
    && (forall a, b :: SharedMetadata(a, b) in relationships <==> (a, b) in metadata)
  }

  /** All relationships: duplicate hashes, the stored comparison and signature links, shared
      creators, and shared labels; then deduplicated. */
  method DetectRelationships(items: seq<Participation>, rows: seq<Row>, compared: seq<Relationship>, signed: seq<Relationship>,
                             named: seq<Relationship>)
    returns (relationships: seq<Relationship>)
    requires forall r :: r in compared + signed + named ==> !IsChain(r)
    ensures exists duplicates, metadata ::
              && AreChains(HashNodes(items), duplicates) && AreChains(CreatorNodes(rows, ParticipantIds(items)), metadata)
              && HoldsChains(relationships, duplicates, metadata)
    ensures forall i, j :: 0 <= i < j < |relationships| ==>
              RelationshipId(relationships[i]) != RelationshipId(relationships[j])
  {
    var duplicates := LinkGroups(HashNodes(items));
    var metadata := LinkGroups(CreatorNodes(rows, ParticipantIds(items)));
    var all := Each(duplicates, AsDuplicate) + compared + signed + Each(metadata, AsMetadata) + named;
    relationships := Deduplicate(all, RelationshipId);
    ChainsKept(duplicates, metadata, compared, signed, named, all, relationships);
  }

  /** Deduplication keeps the two chains as they are. */
  lemma ChainsKept(duplicates: seq<Edge>, metadata: seq<Edge>, compared: seq<Relationship>, signed: seq<Relationship>,
                   named: seq<Relationship>, all: seq<Relationship>, unique: seq<Relationship>)
    requires forall r :: r in compared + signed + named ==> !IsChain(r)
    requires all == Each(duplicates, AsDuplicate) + compared + signed + Each(metadata, AsMetadata) + named
    requires IsUnique(all, RelationshipId, unique)
    ensures HoldsChains(unique, duplicates, metadata)
  {
    forall a: Uuid, b: Uuid
      ensures DuplicateHash(a, b) in unique <==> (a, b) in duplicates
      ensures SharedMetadata(a, b) in unique <==> (a, b) in metadata
    {
      ChainSurvives(all, unique, DuplicateHash(a, b));
      ChainSurvives(all, unique, SharedMetadata(a, b));
      PartsOf(duplicates, metadata, compared, signed, named, DuplicateHash(a, b));
      PartsOf(duplicates, metadata, compared, signed, named, SharedMetadata(a, b));
      InEach(duplicates, AsDuplicate, (a, b));
      InEach(metadata, AsMetadata, (a, b));
    }
  }

  lemma PartsOf(duplicates: seq<Edge>, metadata: seq<Edge>, compared: seq<Relationship>, signed: seq<Relationship>,
                named: seq<Relationship>, r: Relationship)
    requires forall r :: r in compared + signed + named ==> !IsChain(r)
    requires IsChain(r)
    ensures r in Each(duplicates, AsDuplicate) + compared + signed + Each(metadata, AsMetadata) + named <==>
            if r.DuplicateHash? then r in Each(duplicates, AsDuplicate) else r in Each(metadata, AsMetadata)
  {
    assert r !in compared && r !in signed && r !in named by {
      assert forall s :: s in compared || s in signed || s in named ==> s in compared + signed + named;
    }
    assert r in Each(duplicates, AsDuplicate) ==> r.DuplicateHash? by {
      if i :| 0 <= i < |duplicates| && AsDuplicate(duplicates[i]) == r {}
    }
    assert r in Each(metadata, AsMetadata) ==> r.SharedMetadata? by {
      if i :| 0 <= i < |metadata| && AsMetadata(metadata[i]) == r {}
    }
  }

  function AsDuplicate(e: Edge): Relationship { DuplicateHash(e.0, e.1) }
  function AsMetadata(e: Edge): Relationship { SharedMetadata(e.0, e.1) }

  lemma InEach(edges: seq<Edge>, make: Edge -> Relationship, e: Edge)
    requires forall x, y :: make(x) == make(y) ==> x == y
    ensures make(e) in Each(edges, make) <==> e in edges
  {
    if e in edges {
      var i :| 0 <= i < |edges| && edges[i] == e;
      assert Each(edges, make)[i] == make(e);
    }
  }

  /** Deduplication drops no chain link. */
  lemma ChainSurvives(all: seq<Relationship>, unique: seq<Relationship>, r: Relationship)
    requires IsUnique(all, RelationshipId, unique) && IsChain(r)
    ensures r in unique <==> r in all
  {
    if r in all {
      var i :| 0 <= i < |all| && all[i] == r;
      assert RelationshipId(r) in Ids(all, RelationshipId);
      var j := FirstWith(all, RelationshipId, RelationshipId(r));
      ChainIdUnique(r, all[j]);
    }
  }

  // ----- who counts as the creator -------------------------------------------------------

  /** The creator of a row, whose author counts only when no creator is given; white space around a
      name and the case of its letters do not matter, and what is no text names nobody. */
  lemma CreatorRead(row: Row, s: string)
    ensures row.creator == Json.Text(s) && s != "" ==> CreatorOf(row) == LowerAll(Strip(s))
    ensures row.creator == Truthy ==> CreatorOf(row) == ""
    ensures row.creator in {Missing, Falsy, Json.Text("")} && row.author == Json.Text(s) ==> CreatorOf(row) == LowerAll(Strip(s))
    ensures row.creator in {Missing, Falsy, Json.Text("")} && !row.author.Text? ==> CreatorOf(row) == ""
  {
    if s == "" {
      assert Strip(s) == "" && LowerAll("") == "";
    }
  }
}
