/** The category seed: the whole category collection is wiped, then a fixed
    tree is stored depth first. Each node's children are created before the
    node itself (with no parent), the node is created listing their ids in
    declaration order, and a final update points every child at the node. */
module Seed {
  import opened Common
  import Sorting
  import opened Categories

  datatype SeedNode = SeedNode(name: string, slug: string, children: seq<SeedNode>)

  /** Every category of `cs` is still in `cs'` with the same name, slug and
      subcategories; only parents may have been set. */
  ghost predicate SameShape(cs: CategoryStore, cs': CategoryStore)
  {
    forall k :: k in cs ==>
      && k in cs' && cs'[k].name == cs[k].name && cs'[k].slug == cs[k].slug
      && cs'[k].subcategories == cs[k].subcategories
  }

  /** Nothing stored before changes at all. */
  ghost predicate Extends(cs: CategoryStore, cs': CategoryStore)
  {
    forall k :: k in cs ==> k in cs' && cs'[k] == cs[k]
  }

  /** The stored subtree under `id` has the shape of `node`: same name and
      slug, and its subcategories list the stored children in declaration
      order. */
  ghost predicate Mirrors(cs: CategoryStore, node: SeedNode, id: Id)
    decreases node
  {
    && id in cs && cs[id].name == node.name && cs[id].slug == node.slug
    && |cs[id].subcategories| == |node.children|
    && forall i :: 0 <= i < |node.children| ==> Mirrors(cs, node.children[i], cs[id].subcategories[i])
  }

  lemma {:induction false} MirrorsKeepsShape(cs: CategoryStore, cs': CategoryStore, node: SeedNode, id: Id)
    requires SameShape(cs, cs') && Mirrors(cs, node, id)
    ensures Mirrors(cs', node, id)
    decreases node
  {
    forall i | 0 <= i < |node.children|
      ensures Mirrors(cs', node.children[i], cs'[id].subcategories[i])
    {
      MirrorsKeepsShape(cs, cs', node.children[i], cs[id].subcategories[i]);
    }
  }

  /** `updateMany({_id: {$in: ids}}, {$set: {parent: p}})`. */
  function SetParents(cs: CategoryStore, ids: seq<Id>, p: Id): (r: CategoryStore)
    ensures r.Keys == cs.Keys
    ensures forall k :: k in cs && k in ids ==> r[k] == cs[k].(parent := Some(p))
    ensures forall k :: k in cs && k !in ids ==> r[k] == cs[k]
  {
    map k | k in cs :: if k in ids then cs[k].(parent := Some(p)) else cs[k]
  }

  /** The seed's inner `createCategory` for one node, called with no parent:
      the node ends up stored fresh, without a parent, mirroring its
      subtree, and nothing stored before changes. */
  function BuildNode(node: SeedNode, cs: CategoryStore): (r: (CategoryStore, Id))
    ensures Extends(cs, r.0)
    ensures r.1 in r.0 && r.1 !in cs
    ensures r.0[r.1].parent.None?
    ensures Mirrors(r.0, node, r.1)
    ensures forall k :: k in r.0[r.1].subcategories ==> k in r.0 && r.0[k].parent == Some(r.1)
    decreases node
  {
    var (built, ids) := BuildForest(node.children, cs);
    var id := NewId(built, None);
    var created := built[id := Category(node.name, node.slug, None, ids, "", None)];
    var linked := SetParents(created, ids, id);
    MirrorsAfterLink(node, built, ids, id, created, linked);
    LinkPointsBack(node, built, ids, id, created, linked);
    (linked, id)
  }

  /** After the link step the node lists its children and each child names
      the node as parent. */
  lemma LinkPointsBack(
    node: SeedNode, built: CategoryStore, ids: seq<Id>, id: Id, created: CategoryStore, linked: CategoryStore)
    requires forall i :: 0 <= i < |ids| ==> ids[i] in built
    requires id !in built
    requires created == built[id := Category(node.name, node.slug, None, ids, "", None)]
    requires linked == SetParents(created, ids, id)
    ensures linked[id].subcategories == ids
    ensures forall k :: k in ids ==> k in linked && linked[k].parent == Some(id)
  {
    assert id !in ids;
  }

  lemma MirrorsAfterLink(
    node: SeedNode, built: CategoryStore, ids: seq<Id>, id: Id, created: CategoryStore, linked: CategoryStore)
    requires |ids| == |node.children|
    requires forall i :: 0 <= i < |ids| ==> Mirrors(built, node.children[i], ids[i])
    requires id !in built
    requires created == built[id := Category(node.name, node.slug, None, ids, "", None)]
    requires linked == SetParents(created, ids, id)
    ensures Mirrors(linked, node, id)
  {
    assert SameShape(built, linked);
    forall i | 0 <= i < |ids|
      ensures Mirrors(linked, node.children[i], ids[i])
    {
      MirrorsKeepsShape(built, linked, node.children[i], ids[i]);
    }
  }

  /** The seed's loop over a list of sibling nodes: each is built in turn,
      and their ids come back in order, all fresh, distinct and without a
      parent. */
  function BuildForest(nodes: seq<SeedNode>, cs: CategoryStore): (r: (CategoryStore, seq<Id>))
    ensures Extends(cs, r.0)
    ensures |r.1| == |nodes|
    ensures Sorting.Distinct(r.1)
    ensures forall i :: 0 <= i < |r.1| ==> r.1[i] in r.0 && r.1[i] !in cs && r.0[r.1[i]].parent.None?
    ensures forall i :: 0 <= i < |nodes| ==> Mirrors(r.0, nodes[i], r.1[i])
    decreases nodes
  {
    if |nodes| == 0 then (cs, [])
    else
      var (first, id) := BuildNode(nodes[0], cs);
      var (rest, ids) := BuildForest(nodes[1..], first);
      ForestStep(nodes, cs, first, id, rest, ids);
      (rest, [id] + ids)
  }

  lemma ForestStep(
    nodes: seq<SeedNode>, cs: CategoryStore, first: CategoryStore, id: Id, rest: CategoryStore, ids: seq<Id>)
    requires |nodes| > 0 && |ids| == |nodes| - 1
    requires Extends(cs, first) && id in first && id !in cs && Mirrors(first, nodes[0], id)
    requires first[id].parent.None?
    requires Extends(first, rest) && Sorting.Distinct(ids)
    requires forall i :: 0 <= i < |ids| ==> ids[i] in rest && ids[i] !in first && rest[ids[i]].parent.None?
    requires forall i :: 0 <= i < |ids| ==> Mirrors(rest, nodes[1..][i], ids[i])
    ensures Extends(cs, rest)
    ensures Sorting.Distinct([id] + ids)
    ensures forall i :: 0 <= i < |nodes| ==> ([id] + ids)[i] in rest && ([id] + ids)[i] !in cs
    ensures forall i :: 0 <= i < |nodes| ==> rest[([id] + ids)[i]].parent.None?
    ensures forall i :: 0 <= i < |nodes| ==> Mirrors(rest, nodes[i], ([id] + ids)[i])
  {
    assert SameShape(first, rest);
    MirrorsKeepsShape(first, rest, nodes[0], id);
    forall i | 1 <= i < |nodes|
      ensures Mirrors(rest, nodes[i], ([id] + ids)[i])
    {
      assert nodes[i] == nodes[1..][i - 1];
    }
  }

  /** `seedCategories`: the existing collection is wiped, then each
      top-level node is built in turn. */
  function SeedCategories(existing: CategoryStore, forest: seq<SeedNode>): (r: (CategoryStore, seq<Id>))
    ensures |r.1| == |forest|
    ensures forall i :: 0 <= i < |forest| ==> Mirrors(r.0, forest[i], r.1[i]) && r.0[r.1[i]].parent.None?
    ensures Consistent(r.0)
  {
    var r := BuildForest(forest, map[]);
    ForestConsistent(forest, map[]);
    r
  }

  /** Whatever was stored before, the seed ends in the same collection. */
  lemma SeedWipesFirst(a: CategoryStore, b: CategoryStore, forest: seq<SeedNode>)
    ensures SeedCategories(a, forest) == SeedCategories(b, forest)
  {
  }

  // ---------------------------------------------------------------------------
  // The links the seed leaves are consistent

  lemma {:induction false} NodeConsistent(node: SeedNode, cs: CategoryStore)
    requires Consistent(cs)
    ensures Consistent(BuildNode(node, cs).0)
    decreases node
  {
    ForestConsistent(node.children, cs);
    var (built, ids) := BuildForest(node.children, cs);
    var id := NewId(built, None);
    var created := Category(node.name, node.slug, None, ids, "", None);
    var linked := SetParents(built[id := created], ids, id);
    assert BuildNode(node, cs).0 == linked;
    LinkConsistent(built, ids, id, created, linked);
  }

  lemma {:induction false} ForestConsistent(nodes: seq<SeedNode>, cs: CategoryStore)
    requires Consistent(cs)
    ensures Consistent(BuildForest(nodes, cs).0)
    decreases nodes
  {
    if |nodes| > 0 {
      NodeConsistent(nodes[0], cs);
      var (first, id) := BuildNode(nodes[0], cs);
      ForestConsistent(nodes[1..], first);
    }
  }

  /** Creating a node over parentless fresh children and pointing them at
      it keeps the links consistent. */
  lemma LinkConsistent(built: CategoryStore, ids: seq<Id>, id: Id, node: Category, linked: CategoryStore)
    requires Consistent(built)
    requires forall i :: 0 <= i < |ids| ==> ids[i] in built && built[ids[i]].parent.None?
    requires id !in Refs(built)
    requires node.parent.None? && node.subcategories == ids
    requires linked == SetParents(built[id := node], ids, id)
    ensures Consistent(linked)
  {
    forall k, c | k in linked && c in linked[k].subcategories
      ensures c in linked && linked[c].parent == Some(k)
    {
      if k != id {
        assert c in built[k].subcategories;
        assert built[c].parent == Some(k);
        assert c !in ids;
      }
    }
    forall k | k in linked && linked[k].parent.Some? && linked[k].parent.value in linked
      ensures k in linked[linked[k].parent.value].subcategories
    {
      if k != id && k !in ids {
        var q := built[k].parent.value;
        assert q in Refs(built);
      }
    }
  }

  /** In the seeded store every mirrored child points back at its node. */
  lemma ChildrenPointAtNode(existing: CategoryStore, forest: seq<SeedNode>, k: Id, i: nat)
    requires k in SeedCategories(existing, forest).0
    requires i < |SeedCategories(existing, forest).0[k].subcategories|
    ensures var cs := SeedCategories(existing, forest).0;
      cs[k].subcategories[i] in cs && cs[cs[k].subcategories[i]].parent == Some(k)
  {
  }

  // ---------------------------------------------------------------------------
  // The seed data

  function Leaf(name: string, slug: string): SeedNode
  {
    SeedNode(name, slug, [])
  }
  /** The seeded tree: two top-level categories, Tech and Gaming. */
  const Devices := SeedNode("Devices", "tech-devices", [
    Leaf("Laptops", "tech-devices-laptops"),
    Leaf("Tablets", "tech-devices-tablets"),
    Leaf("Phones", "tech-devices-phones")])
  const Tech := SeedNode("Tech", "tech", [
    Leaf("Peripherals", "tech-peripherals"),
    Leaf("Accessories", "tech-accessories"),
    Devices])
  const Consoles := SeedNode("Console Ecosystems", "gaming-console-ecosystems", [
    Leaf("Xbox", "gaming-xbox"),
    Leaf("PlayStation", "gaming-playstation"),
    Leaf("Nintendo", "gaming-nintendo")])
  const Handhelds := SeedNode("Handheld Devices", "gaming-handheld-devices", [
    Leaf("Steam Deck", "gaming-steam-deck"),
    Leaf("ROG Ally", "gaming-rog-ally"),
    Leaf("Legion Go", "gaming-legion-go"),
    Leaf("Other Handhelds", "gaming-other-handhelds")])
  const Games := SeedNode("Games", "gaming-games", [
    Leaf("Used Console Games", "gaming-used-console-games"),
    Leaf("Mint/Sealed Copies", "gaming-mint-sealed"),
    Leaf("Open-but-New Copies", "gaming-open-new")])
  const Collectibles := SeedNode("Collectibles", "gaming-collectibles", [
    Leaf("Console Collectibles", "gaming-console-collectibles"),
    Leaf("Retro Collectible Games", "gaming-retro-collectible-games"),
    Leaf("Figurines", "gaming-figurines"),
    Leaf("Limited Editions", "gaming-limited-editions")])
  const Gaming := SeedNode("Gaming", "gaming", [
    Consoles, Handhelds, Leaf("Retro Devices", "gaming-retro-devices"), Games, Collectibles,
    Leaf("Console Accessories & Peripherals", "gaming-console-accessories-peripherals")])
  const SeedData: seq<SeedNode> := [Tech, Gaming]

  /** The two fields of a category that carry a unique index. */
  datatype Key = NameKey | SlugKey

  function KeyOf(n: SeedNode, key: Key): string
  {
    match key
    case NameKey => n.name
    case SlugKey => n.slug
  }

  /** The names or slugs of a subtree, the node first, then each child's
      subtree in order. */
  function NodeKeys(n: SeedNode, key: Key): seq<string>
    decreases n, 1
  {
    [KeyOf(n, key)] + ForestKeys(n.children, key)
  }

  function ForestKeys(ns: seq<SeedNode>, key: Key): seq<string>
    decreases ns, 0
  {
    if |ns| == 0 then [] else NodeKeys(ns[0], key) + ForestKeys(ns[1..], key)
  }

  /** The listing of names or of slugs, as `key` says. */
  function ByKey(key: Key, names: seq<string>, slugs: seq<string>): seq<string>
  {
    if key == NameKey then names else slugs
  }

  /** The 28 seeded names, in the order `NodeKeys` visits them. */
  const SeedNames: seq<string> := [
    "Tech", "Peripherals", "Accessories", "Devices", "Laptops", "Tablets", "Phones",
    "Gaming", "Console Ecosystems", "Xbox", "PlayStation", "Nintendo",
    "Handheld Devices", "Steam Deck", "ROG Ally", "Legion Go", "Other Handhelds",
    "Retro Devices", "Games", "Used Console Games", "Mint/Sealed Copies", "Open-but-New Copies",
    "Collectibles", "Console Collectibles", "Retro Collectible Games", "Figurines",
    "Limited Editions", "Console Accessories & Peripherals"]

  /** The 28 seeded slugs, in the same order. */
  const SeedSlugs: seq<string> := [
    "tech", "tech-peripherals", "tech-accessories", "tech-devices", "tech-devices-laptops",
    "tech-devices-tablets", "tech-devices-phones",
    "gaming", "gaming-console-ecosystems", "gaming-xbox", "gaming-playstation", "gaming-nintendo",
    "gaming-handheld-devices", "gaming-steam-deck", "gaming-rog-ally", "gaming-legion-go",
    "gaming-other-handhelds", "gaming-retro-devices", "gaming-games", "gaming-used-console-games",
    "gaming-mint-sealed", "gaming-open-new", "gaming-collectibles", "gaming-console-collectibles",
    "gaming-retro-collectible-games", "gaming-figurines", "gaming-limited-editions",
    "gaming-console-accessories-peripherals"]

  lemma NameListDistinct()
    ensures forall i, j :: 0 <= i < j < |SeedNames| ==> SeedNames[i] != SeedNames[j]
  {
  }

  lemma SlugListDistinct()
    ensures forall i, j :: 0 <= i < j < |SeedSlugs| ==> SeedSlugs[i] != SeedSlugs[j]
  {
  }

  lemma LeafKeys(n: SeedNode, key: Key)
    requires n.children == []
    ensures NodeKeys(n, key) == [KeyOf(n, key)]
  {
    assert ForestKeys([], key) == [];
  }

  lemma {:induction false} ForestKeys3(a: SeedNode, b: SeedNode, c: SeedNode, key: Key)
    ensures ForestKeys([a, b, c], key) == NodeKeys(a, key) + NodeKeys(b, key) + NodeKeys(c, key)
  {
    assert [a, b, c][1..] == [b, c];
    assert [b, c][1..] == [c];
    assert [c][1..] == [];
    assert ForestKeys([c], key) == NodeKeys(c, key) + ForestKeys([], key);
    assert ForestKeys([b, c], key) == NodeKeys(b, key) + ForestKeys([c], key);
  }

  lemma {:induction false} ForestKeysAppend(a: seq<SeedNode>, b: seq<SeedNode>, key: Key)
    ensures ForestKeys(a + b, key) == ForestKeys(a, key) + ForestKeys(b, key)
    decreases a
  {
    if |a| == 0 {
      assert a + b == b;
    } else {
      assert (a + b)[1..] == a[1..] + b;
      ForestKeysAppend(a[1..], b, key);
    }
  }

  lemma {:induction false} ForestKeys2(a: SeedNode, b: SeedNode, key: Key)
    ensures ForestKeys([a, b], key) == NodeKeys(a, key) + NodeKeys(b, key)
  {
    assert [a, b][1..] == [b];
    assert [b][1..] == [];
    assert ForestKeys([b], key) == NodeKeys(b, key) + ForestKeys([], key);
  }

  /** A node with three leaf children lists itself, then the three leaves. */
  lemma ThreeLeavesKeys(n: SeedNode, key: Key)
    requires |n.children| == 3 && forall i :: 0 <= i < 3 ==> n.children[i].children == []
    ensures NodeKeys(n, key)
         == [KeyOf(n, key), KeyOf(n.children[0], key), KeyOf(n.children[1], key), KeyOf(n.children[2], key)]
  {
    var c := n.children;
    LeafKeys(c[0], key); LeafKeys(c[1], key); LeafKeys(c[2], key);
    assert c == [c[0], c[1], c[2]];
    ForestKeys3(c[0], c[1], c[2], key);
  }

  /** A node with four leaf children lists itself, then the four leaves. */
  lemma FourLeavesKeys(n: SeedNode, key: Key)
    requires |n.children| == 4 && forall i :: 0 <= i < 4 ==> n.children[i].children == []
    ensures NodeKeys(n, key)
         == [KeyOf(n, key), KeyOf(n.children[0], key), KeyOf(n.children[1], key),
             KeyOf(n.children[2], key), KeyOf(n.children[3], key)]
  {
    var c := n.children;
    LeafKeys(c[0], key); LeafKeys(c[1], key); LeafKeys(c[2], key); LeafKeys(c[3], key);
    ForestKeys2(c[0], c[1], key); ForestKeys2(c[2], c[3], key);
    assert c == [c[0], c[1]] + [c[2], c[3]];
    ForestKeysAppend([c[0], c[1]], [c[2], c[3]], key);
  }

  lemma TechKeys(key: Key)
    ensures NodeKeys(Tech, key) == ByKey(key,
      ["Tech", "Peripherals", "Accessories", "Devices", "Laptops", "Tablets", "Phones"],
      ["tech", "tech-peripherals", "tech-accessories", "tech-devices", "tech-devices-laptops",
       "tech-devices-tablets", "tech-devices-phones"])
  {
    var c := Tech.children;
    LeafKeys(c[0], key); LeafKeys(c[1], key); ThreeLeavesKeys(Devices, key);
    ForestKeys3(c[0], c[1], c[2], key);
  }

  lemma {:induction false} ForestKeys6(a: SeedNode, b: SeedNode, c: SeedNode, d: SeedNode, e: SeedNode, f: SeedNode, key: Key)
    ensures ForestKeys([a, b, c, d, e, f], key)
         == NodeKeys(a, key) + NodeKeys(b, key) + NodeKeys(c, key) + NodeKeys(d, key)
          + NodeKeys(e, key) + NodeKeys(f, key)
  {
    ForestKeys3(a, b, c, key); ForestKeys3(d, e, f, key);
    assert [a, b, c, d, e, f] == [a, b, c] + [d, e, f];
    ForestKeysAppend([a, b, c], [d, e, f], key);
  }

  /** The keys of a node with six children, flattened one level. */
  lemma SixChildKeys(n: SeedNode, key: Key)
    requires |n.children| == 6
    ensures NodeKeys(n, key) == [KeyOf(n, key)] + NodeKeys(n.children[0], key) + NodeKeys(n.children[1], key)
              + NodeKeys(n.children[2], key) + NodeKeys(n.children[3], key) + NodeKeys(n.children[4], key)
              + NodeKeys(n.children[5], key)
  {
    var c := n.children;
    assert c == [c[0], c[1], c[2], c[3], c[4], c[5]];
    ForestKeys6(c[0], c[1], c[2], c[3], c[4], c[5], key);
  }

  lemma GamingKeys(key: Key)
    ensures NodeKeys(Gaming, key) == [KeyOf(Gaming, key)] + NodeKeys(Consoles, key) + NodeKeys(Handhelds, key)
              + [KeyOf(Gaming.children[2], key)] + NodeKeys(Games, key) + NodeKeys(Collectibles, key)
              + [KeyOf(Gaming.children[5], key)]
  {
    LeafKeys(Gaming.children[2], key); LeafKeys(Gaming.children[5], key);
    SixChildKeys(Gaming, key);
  }

  lemma ConsolesKeys(key: Key)
    ensures NodeKeys(Consoles, key) == ByKey(key,
      ["Console Ecosystems", "Xbox", "PlayStation", "Nintendo"],
      ["gaming-console-ecosystems", "gaming-xbox", "gaming-playstation", "gaming-nintendo"])
  {
    ThreeLeavesKeys(Consoles, key);
  }

  lemma HandheldsKeys(key: Key)
    ensures NodeKeys(Handhelds, key) == ByKey(key,
      ["Handheld Devices", "Steam Deck", "ROG Ally", "Legion Go", "Other Handhelds"],
      ["gaming-handheld-devices", "gaming-steam-deck", "gaming-rog-ally", "gaming-legion-go",
       "gaming-other-handhelds"])
  {
    FourLeavesKeys(Handhelds, key);
  }

  lemma GamesKeys(key: Key)
    ensures NodeKeys(Games, key) == ByKey(key,
      ["Games", "Used Console Games", "Mint/Sealed Copies", "Open-but-New Copies"],
      ["gaming-games", "gaming-used-console-games", "gaming-mint-sealed", "gaming-open-new"])
  {
    ThreeLeavesKeys(Games, key);
  }

  lemma CollectiblesKeys(key: Key)
    ensures NodeKeys(Collectibles, key) == ByKey(key,
      ["Collectibles", "Console Collectibles", "Retro Collectible Games", "Figurines", "Limited Editions"],
      ["gaming-collectibles", "gaming-console-collectibles", "gaming-retro-collectible-games",
       "gaming-figurines", "gaming-limited-editions"])
  {
    FourLeavesKeys(Collectibles, key);
  }

  lemma GamingNameBlocks()
    ensures ["Gaming"]
      + ["Console Ecosystems", "Xbox", "PlayStation", "Nintendo"]
      + ["Handheld Devices", "Steam Deck", "ROG Ally", "Legion Go", "Other Handhelds"]
      + ["Retro Devices"]
      + ["Games", "Used Console Games", "Mint/Sealed Copies", "Open-but-New Copies"]
      + ["Collectibles", "Console Collectibles", "Retro Collectible Games", "Figurines", "Limited Editions"]
      + ["Console Accessories & Peripherals"]
         == [
      "Gaming", "Console Ecosystems", "Xbox", "PlayStation", "Nintendo",
      "Handheld Devices", "Steam Deck", "ROG Ally", "Legion Go", "Other Handhelds",
      "Retro Devices", "Games", "Used Console Games", "Mint/Sealed Copies", "Open-but-New Copies",
      "Collectibles", "Console Collectibles", "Retro Collectible Games", "Figurines",
      "Limited Editions", "Console Accessories & Peripherals"]
  {
  }

  lemma GamingNames()
    ensures NodeKeys(Gaming, NameKey) == [
      "Gaming", "Console Ecosystems", "Xbox", "PlayStation", "Nintendo",
      "Handheld Devices", "Steam Deck", "ROG Ally", "Legion Go", "Other Handhelds",
      "Retro Devices", "Games", "Used Console Games", "Mint/Sealed Copies", "Open-but-New Copies",
      "Collectibles", "Console Collectibles", "Retro Collectible Games", "Figurines",
      "Limited Editions", "Console Accessories & Peripherals"]
  {
    GamingKeys(NameKey);
    ConsolesKeys(NameKey); HandheldsKeys(NameKey); GamesKeys(NameKey); CollectiblesKeys(NameKey);
    assert NodeKeys(Gaming, NameKey) == ["Gaming"]
      + ["Console Ecosystems", "Xbox", "PlayStation", "Nintendo"]
      + ["Handheld Devices", "Steam Deck", "ROG Ally", "Legion Go", "Other Handhelds"]
      + ["Retro Devices"]
      + ["Games", "Used Console Games", "Mint/Sealed Copies", "Open-but-New Copies"]
      + ["Collectibles", "Console Collectibles", "Retro Collectible Games", "Figurines", "Limited Editions"]
      + ["Console Accessories & Peripherals"];
    GamingNameBlocks();
  }

  lemma GamingSlugBlocks()
    ensures ["gaming"]
      + ["gaming-console-ecosystems", "gaming-xbox", "gaming-playstation", "gaming-nintendo"]
      + ["gaming-handheld-devices", "gaming-steam-deck", "gaming-rog-ally", "gaming-legion-go",
         "gaming-other-handhelds"]
      + ["gaming-retro-devices"]
      + ["gaming-games", "gaming-used-console-games", "gaming-mint-sealed", "gaming-open-new"]
      + ["gaming-collectibles", "gaming-console-collectibles", "gaming-retro-collectible-games",
         "gaming-figurines", "gaming-limited-editions"]
      + ["gaming-console-accessories-peripherals"]
         == [
      "gaming", "gaming-console-ecosystems", "gaming-xbox", "gaming-playstation", "gaming-nintendo",
      "gaming-handheld-devices", "gaming-steam-deck", "gaming-rog-ally", "gaming-legion-go",
      "gaming-other-handhelds", "gaming-retro-devices", "gaming-games", "gaming-used-console-games",
      "gaming-mint-sealed", "gaming-open-new", "gaming-collectibles", "gaming-console-collectibles",
      "gaming-retro-collectible-games", "gaming-figurines", "gaming-limited-editions",
      "gaming-console-accessories-peripherals"]
  {
  }

  lemma GamingSlugs()
    ensures NodeKeys(Gaming, SlugKey) == [
      "gaming", "gaming-console-ecosystems", "gaming-xbox", "gaming-playstation", "gaming-nintendo",
      "gaming-handheld-devices", "gaming-steam-deck", "gaming-rog-ally", "gaming-legion-go",
      "gaming-other-handhelds", "gaming-retro-devices", "gaming-games", "gaming-used-console-games",
      "gaming-mint-sealed", "gaming-open-new", "gaming-collectibles", "gaming-console-collectibles",
      "gaming-retro-collectible-games", "gaming-figurines", "gaming-limited-editions",
      "gaming-console-accessories-peripherals"]
  {
    GamingKeys(SlugKey);
    ConsolesKeys(SlugKey); HandheldsKeys(SlugKey); GamesKeys(SlugKey); CollectiblesKeys(SlugKey);
    assert NodeKeys(Gaming, SlugKey) == ["gaming"]
      + ["gaming-console-ecosystems", "gaming-xbox", "gaming-playstation", "gaming-nintendo"]
      + ["gaming-handheld-devices", "gaming-steam-deck", "gaming-rog-ally", "gaming-legion-go",
         "gaming-other-handhelds"]
      + ["gaming-retro-devices"]
      + ["gaming-games", "gaming-used-console-games", "gaming-mint-sealed", "gaming-open-new"]
      + ["gaming-collectibles", "gaming-console-collectibles", "gaming-retro-collectible-games",
         "gaming-figurines", "gaming-limited-editions"]
      + ["gaming-console-accessories-peripherals"];
    GamingSlugBlocks();
  }

  lemma NamesOfSeed()
    ensures ForestKeys(SeedData, NameKey) == SeedNames
  {
    TechKeys(NameKey); GamingNames();
    ForestKeys2(Tech, Gaming, NameKey);
  }

  lemma SlugsOfSeed()
    ensures ForestKeys(SeedData, SlugKey) == SeedSlugs
  {
    TechKeys(SlugKey); GamingSlugs();
    ForestKeys2(Tech, Gaming, SlugKey);
  }

  /** The declared tree's names and slugs, depth first, are the 28 listed. */
  lemma KeysOfSeed(key: Key)
    ensures ForestKeys(SeedData, key) == ByKey(key, SeedNames, SeedSlugs)
  {
    if key == NameKey { NamesOfSeed(); } else { SlugsOfSeed(); }
  }

  /** No two seeded categories share a name or a slug, as the unique
      indexes on both fields require. */
  lemma SeedKeysDistinct(key: Key)
    ensures |ForestKeys(SeedData, key)| == 28
    ensures forall i, j :: 0 <= i < j < |ForestKeys(SeedData, key)| ==>
      ForestKeys(SeedData, key)[i] != ForestKeys(SeedData, key)[j]
  {
    KeysOfSeed(key);
    NameListDistinct();
    SlugListDistinct();
  }
}
