/** The category tree: each category names its parent and lists its
    subcategories, and the controller keeps the two links in step when it
    creates a category under a parent or deletes a leaf. Names and slugs are
    unique indexes. */
module Categories {
  import opened Common
  import Sorting

  datatype Category = Category(
    name: string,
    slug: string,
    parent: Option<Id>,
    subcategories: seq<Id>,
    description: string,
    icon: Option<string>)

  type CategoryStore = map<Id, Category>

  /** The links agree in both directions: every listed subcategory exists and
      names the lister as its parent, and every category whose parent exists
      is listed by it. A parent reference to a missing category is allowed:
      `createCategory` stores one when the given parent does not exist. */
  ghost predicate Consistent(cs: CategoryStore)
  {
    && (forall k, c :: k in cs && c in cs[k].subcategories ==> c in cs && cs[c].parent == Some(k))
    && (forall k :: k in cs && cs[k].parent.Some? && cs[k].parent.value in cs ==>
          k in cs[cs[k].parent.value].subcategories)
  }

  /** The two unique indexes: no two categories share a name or a slug. */
  ghost predicate Unique(cs: CategoryStore)
  {
    forall a, b :: a in cs && b in cs && a != b ==> cs[a].name != cs[b].name && cs[a].slug != cs[b].slug
  }

  /** Would a category called `name` with slug `slug` clash with one other
      than `except`? */
  predicate Clashes(cs: CategoryStore, name: string, slug: string, except: Option<Id>)
  {
    exists k :: k in cs && Some(k) != except && (cs[k].name == name || cs[k].slug == slug)
  }

  /** Every identifier the store mentions, as a key or as a link. */
  function Refs(cs: CategoryStore): (r: set<Id>)
    ensures cs.Keys <= r
    ensures forall k :: k in cs && cs[k].parent.Some? ==> cs[k].parent.value in r
    ensures forall k, c :: k in cs && c in cs[k].subcategories ==> c in r
  {
    cs.Keys
    + (set k | k in cs && cs[k].parent.Some? :: cs[k].parent.value)
    + (set k, c | k in cs && c in cs[k].subcategories :: c)
  }

  /** A new ObjectId: distinct from every identifier the store or the
      request mentions. */
  function NewId(cs: CategoryStore, named: Option<Id>): (r: Id)
    ensures r !in Refs(cs)
    ensures named.Some? ==> r != named.value
  {
    Fresh(Refs(cs) + (if named.Some? then {named.value} else {}))
  }

  /** `ids` without any occurrence of `x`, the rest in order. */
  function Without(ids: seq<Id>, x: Id): (r: seq<Id>)
    ensures forall y :: y in r <==> y in ids && y != x
    ensures |r| <= |ids|
    ensures x !in ids ==> r == ids
  {
    if |ids| == 0 then []
    else if ids[0] == x then Without(ids[1..], x)
    else [ids[0]] + Without(ids[1..], x)
  }

  lemma {:induction false} WithoutAppend(ids: seq<Id>, x: Id)
    ensures Without(ids + [x], x) == Without(ids, x)
  {
    if |ids| == 0 {
      assert [x][1..] == [];
    } else {
      assert (ids + [x])[1..] == ids[1..] + [x];
      WithoutAppend(ids[1..], x);
    }
  }

  // ---------------------------------------------------------------------------
  // Reading

  /** `getCategory`. */
  function GetCategory(cs: CategoryStore, id: Id): (r: Result<Category>)
    ensures r.Err? <==> id !in cs
    ensures r.Err? ==> r.error == NotFound
    ensures r.Ok? ==> r.value == cs[id]
  {
    if id !in cs then Err(NotFound) else Ok(cs[id])
  }

  function Roots(cs: CategoryStore): (r: set<Id>)
    ensures forall k :: k in r <==> k in cs && cs[k].parent.None?
  {
    set k | k in cs && cs[k].parent.None?
  }

  /** `getCategories`' top level: the categories without a parent, by name. */
  method ListRoots(cs: CategoryStore) returns (r: seq<Id>)
    ensures Sorting.Enumerates(r, Roots(cs))
    ensures forall i, j :: 0 <= i < j < |r| ==> Sorting.LexLe(cs[r[i]].name, cs[r[j]].name)
  {
    var names := map k | k in cs :: cs[k].name;
    r := Sorting.SortByName(Roots(cs), names);
  }

  // ---------------------------------------------------------------------------
  // Create

  /** `createCategory`. Name and slug are required; a clash on either unique
      index fails at save time; an absent parent, description or icon takes
      its default. When the parent exists the new category is appended to its
      subcategories; when it does not, only the child is stored. */
  function CreateCategory(
    cs: CategoryStore, name: Option<string>, slug: Option<string>, parent: Option<Id>,
    description: Option<string>, icon: Option<string>): (r: Result<(CategoryStore, Id)>)
    ensures !Truthy(name) || !Truthy(slug) ==> r == Err(BadRequest)
    ensures Truthy(name) && Truthy(slug) && Clashes(cs, name.value, slug.value, None) ==> r == Err(ServerError)
    ensures r.Ok? <==> Truthy(name) && Truthy(slug) && !Clashes(cs, name.value, slug.value, None)
    ensures r.Ok? ==>
      var (cs', id) := r.value;
      && id !in cs
      && cs'.Keys == cs.Keys + {id}
      && cs'[id] == Category(name.value, slug.value, parent, [], GetOr(OrNull(description), ""), OrNull(icon))
  {
    if !Truthy(name) || !Truthy(slug) then Err(BadRequest)
    else if Clashes(cs, name.value, slug.value, None) then Err(ServerError)
    else
      var id := NewId(cs, parent);
      var created := cs[id := Category(name.value, slug.value, parent, [], GetOr(OrNull(description), ""), OrNull(icon))];
      if parent.Some? && parent.value in cs then
        var p := created[parent.value];
        Ok((created[parent.value := p.(subcategories := p.subcategories + [id])], id))
      else Ok((created, id))
  }

  /** Only the new category and, when it exists, its parent change; the
      parent gains the new id at the end of its list. */
  lemma CreateLinks(
    cs: CategoryStore, name: Option<string>, slug: Option<string>, parent: Option<Id>,
    description: Option<string>, icon: Option<string>)
    requires CreateCategory(cs, name, slug, parent, description, icon).Ok?
    ensures var (cs', id) := CreateCategory(cs, name, slug, parent, description, icon).value;
      && (parent.Some? && parent.value in cs ==>
            cs'[parent.value] == cs[parent.value].(subcategories := cs[parent.value].subcategories + [id]))
      && forall k :: k in cs && Some(k) != parent ==> cs'[k] == cs[k]
  {
  }

  lemma CreateKeepsConsistent(
    cs: CategoryStore, name: Option<string>, slug: Option<string>, parent: Option<Id>,
    description: Option<string>, icon: Option<string>)
    requires Consistent(cs)
    requires CreateCategory(cs, name, slug, parent, description, icon).Ok?
    ensures Consistent(CreateCategory(cs, name, slug, parent, description, icon).value.0)
  {
    var (cs', id) := CreateCategory(cs, name, slug, parent, description, icon).value;
    CreateLinks(cs, name, slug, parent, description, icon);
    assert id !in Refs(cs);
    forall k, c | k in cs' && c in cs'[k].subcategories
      ensures c in cs' && cs'[c].parent == Some(k)
    {
      if c != id {
        assert c in cs[k].subcategories;
      }
    }
    forall k | k in cs' && cs'[k].parent.Some? && cs'[k].parent.value in cs'
      ensures k in cs'[cs'[k].parent.value].subcategories
    {
      if k != id {
        assert cs'[k].parent == cs[k].parent;
        assert cs[k].parent.value in cs;
      }
    }
  }

  lemma CreateKeepsUnique(
    cs: CategoryStore, name: Option<string>, slug: Option<string>, parent: Option<Id>,
    description: Option<string>, icon: Option<string>)
    requires Unique(cs)
    requires CreateCategory(cs, name, slug, parent, description, icon).Ok?
    ensures Unique(CreateCategory(cs, name, slug, parent, description, icon).value.0)
  {
    var (cs', id) := CreateCategory(cs, name, slug, parent, description, icon).value;
    CreateLinks(cs, name, slug, parent, description, icon);
    forall a, b | a in cs' && b in cs' && a != b
      ensures cs'[a].name != cs'[b].name && cs'[a].slug != cs'[b].slug
    {
      if a == id {
        assert !(cs[b].name == name.value || cs[b].slug == slug.value);
      } else if b == id {
        assert !(cs[a].name == name.value || cs[a].slug == slug.value);
      } else {
        assert cs'[a].name == cs[a].name && cs'[a].slug == cs[a].slug;
        assert cs'[b].name == cs[b].name && cs'[b].slug == cs[b].slug;
      }
    }
  }

  // ---------------------------------------------------------------------------
  // Update

  /** The body's edits: a non-empty name or slug replaces the old one; a
      description or icon present in the body replaces the old one, empty or
      not; the links are never touched. */
  function Edited(c: Category, name: Option<string>, slug: Option<string>,
                  description: Option<string>, icon: Option<Option<string>>): (r: Category)
    ensures r.parent == c.parent && r.subcategories == c.subcategories
    ensures r.name == (if Truthy(name) then name.value else c.name)
    ensures r.slug == (if Truthy(slug) then slug.value else c.slug)
    ensures description.Some? ==> r.description == description.value
    ensures description.None? ==> r.description == c.description
    ensures icon.Some? ==> r.icon == icon.value
    ensures icon.None? ==> r.icon == c.icon
  {
    c.(name := if Truthy(name) then name.value else c.name,
       slug := if Truthy(slug) then slug.value else c.slug,
       description := GetOr(description, c.description),
       icon := GetOr(icon, c.icon))
  }

  /** An empty body changes nothing. */
  lemma EmptyEditIsIdentity(c: Category)
    ensures Edited(c, None, None, None, None) == c
    ensures Edited(c, Some(""), Some(""), None, None) == c
  {
  }

  /** `updateCategory`: unknown id; otherwise the edited category is saved,
      unless it now clashes with another on a unique index. */
  function UpdateCategory(
    cs: CategoryStore, id: Id, name: Option<string>, slug: Option<string>,
    description: Option<string>, icon: Option<Option<string>>): (r: Result<CategoryStore>)
    ensures id !in cs ==> r == Err(NotFound)
    ensures id in cs ==>
      var c' := Edited(cs[id], name, slug, description, icon);
      && (r.Err? <==> Clashes(cs, c'.name, c'.slug, Some(id)))
      && (r.Err? ==> r.error == ServerError)
      && (r.Ok? ==> r.value == cs[id := c'])
  {
    if id !in cs then Err(NotFound)
    else
      var c' := Edited(cs[id], name, slug, description, icon);
      if Clashes(cs, c'.name, c'.slug, Some(id)) then Err(ServerError)
      else Ok(cs[id := c'])
  }

  /** An update never touches the links, so they stay consistent. */
  lemma UpdateKeepsConsistent(
    cs: CategoryStore, id: Id, name: Option<string>, slug: Option<string>,
    description: Option<string>, icon: Option<Option<string>>)
    requires Consistent(cs)
    requires UpdateCategory(cs, id, name, slug, description, icon).Ok?
    ensures Consistent(UpdateCategory(cs, id, name, slug, description, icon).value)
  {
    var cs' := UpdateCategory(cs, id, name, slug, description, icon).value;
    assert cs'.Keys == cs.Keys;
    assert forall k :: k in cs ==> cs'[k].parent == cs[k].parent && cs'[k].subcategories == cs[k].subcategories;
  }

  /** An update that passes the clash test keeps names and slugs unique. */
  lemma UpdateKeepsUnique(
    cs: CategoryStore, id: Id, name: Option<string>, slug: Option<string>,
    description: Option<string>, icon: Option<Option<string>>)
    requires Unique(cs)
    requires UpdateCategory(cs, id, name, slug, description, icon).Ok?
    ensures Unique(UpdateCategory(cs, id, name, slug, description, icon).value)
  {
    var cs' := UpdateCategory(cs, id, name, slug, description, icon).value;
    var c' := Edited(cs[id], name, slug, description, icon);
    forall a, b | a in cs' && b in cs' && a != b
      ensures cs'[a].name != cs'[b].name && cs'[a].slug != cs'[b].slug
    {
      if a == id {
        assert !(cs[b].name == c'.name || cs[b].slug == c'.slug);
      } else if b == id {
        assert !(cs[a].name == c'.name || cs[a].slug == c'.slug);
      }
    }
  }

  // ---------------------------------------------------------------------------
  // Delete

  /** `deleteCategory`: unknown id; a category with subcategories is
      refused; otherwise it leaves its existing parent's list and is
      removed. */
  function DeleteCategory(cs: CategoryStore, id: Id): (r: Result<CategoryStore>)
    ensures id !in cs ==> r == Err(NotFound)
    ensures id in cs && |cs[id].subcategories| > 0 ==> r == Err(BadRequest)
    ensures r.Ok? <==> id in cs && |cs[id].subcategories| == 0
    ensures r.Ok? ==>
      && r.value.Keys == cs.Keys - {id}
      && forall k :: k in r.value ==>
           r.value[k] == if Some(k) == cs[id].parent
                         then cs[k].(subcategories := Without(cs[k].subcategories, id))
                         else cs[k]
  {
    if id !in cs then Err(NotFound)
    else if |cs[id].subcategories| > 0 then Err(BadRequest)
    else
      var c := cs[id];
      var detached :=
        if c.parent.Some? && c.parent.value in cs
        then cs[c.parent.value := cs[c.parent.value].(subcategories := Without(cs[c.parent.value].subcategories, id))]
        else cs;
      Ok(detached - {id})
  }

  /** Deleting keeps every surviving category's name, slug and parent, and
      every list but the parent's. */
  lemma DeleteFrame(cs: CategoryStore, id: Id, k: Id)
    requires DeleteCategory(cs, id).Ok? && k in DeleteCategory(cs, id).value
    ensures var c' := DeleteCategory(cs, id).value[k];
      && k in cs && k != id
      && c'.name == cs[k].name && c'.slug == cs[k].slug && c'.parent == cs[k].parent
      && (forall c :: c in c'.subcategories ==> c in cs[k].subcategories)
      && (Some(k) == cs[id].parent ==> id !in c'.subcategories)
      && (Some(k) != cs[id].parent ==> c'.subcategories == cs[k].subcategories)
  {
  }

  lemma DeleteKeepsConsistent(cs: CategoryStore, id: Id)
    requires Consistent(cs)
    requires DeleteCategory(cs, id).Ok?
    ensures Consistent(DeleteCategory(cs, id).value)
  {
    var cs' := DeleteCategory(cs, id).value;
    forall k, c | k in cs' && c in cs'[k].subcategories
      ensures c in cs' && cs'[c].parent == Some(k)
    {
      DeleteFrame(cs, id, k);
      assert c in cs[k].subcategories;
      assert c != id;
      DeleteFrame(cs, id, c);
    }
    forall k | k in cs' && cs'[k].parent.Some? && cs'[k].parent.value in cs'
      ensures k in cs'[cs'[k].parent.value].subcategories
    {
      DeleteFrame(cs, id, k);
      var q := cs[k].parent.value;
      DeleteFrame(cs, id, q);
      assert k in cs[q].subcategories;
    }
  }

  lemma DeleteKeepsUnique(cs: CategoryStore, id: Id)
    requires Unique(cs)
    requires DeleteCategory(cs, id).Ok?
    ensures Unique(DeleteCategory(cs, id).value)
  {
    var cs' := DeleteCategory(cs, id).value;
    forall a, b | a in cs' && b in cs' && a != b
      ensures cs'[a].name != cs'[b].name && cs'[a].slug != cs'[b].slug
    {
      DeleteFrame(cs, id, a);
      DeleteFrame(cs, id, b);
    }
  }

  /** Deleting a leaf just created undoes the creation exactly, parent's
      list included. */
  lemma CreateThenDeleteRestores(
    cs: CategoryStore, name: Option<string>, slug: Option<string>, parent: Option<Id>,
    description: Option<string>, icon: Option<string>)
    requires CreateCategory(cs, name, slug, parent, description, icon).Ok?
    ensures var (cs', id) := CreateCategory(cs, name, slug, parent, description, icon).value;
      DeleteCategory(cs', id) == Ok(cs)
  {
    var (cs', id) := CreateCategory(cs, name, slug, parent, description, icon).value;
    CreateLinks(cs, name, slug, parent, description, icon);
    var r := DeleteCategory(cs', id).value;
    if parent.Some? && parent.value in cs {
      var s := cs[parent.value].subcategories;
      assert id !in s;
      WithoutAppend(s, id);
      assert r[parent.value] == cs[parent.value];
    }
    assert r == cs;
  }

  /** A category with subcategories can never be deleted, and a deleted
      leaf no longer appears in any list. */
  lemma DeletedLeafIsUnlisted(cs: CategoryStore, id: Id)
    requires Consistent(cs)
    requires DeleteCategory(cs, id).Ok?
    ensures forall k, c :: k in DeleteCategory(cs, id).value && c in DeleteCategory(cs, id).value[k].subcategories ==> c != id
  {
    DeleteKeepsConsistent(cs, id);
  }
}
