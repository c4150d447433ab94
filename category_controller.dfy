/** api/controllers/categoryController.js: creating, updating and deleting the
    categories, which form a tree through their `parentCategory` links. */
module CategoryController {
  import opened Common
  import opened Text
  import opened Tables
  import opened Schemas
  import opened Store

  /* ------------------------------------------------------------ the request */

  /** `!name || !name.trim()`: the name is absent, empty or only whitespace. */
  predicate NameMissing(name: Option<string>) {
    Blank(name) || Trim(name.value) == ""
  }

  /** `parentCategory || null`, cast to an ObjectId: an empty string links nowhere,
      like an absent field. */
  function ParentOf(parent: Option<string>): (r: Option<CategoryId>)
    ensures r.Some? <==> !Blank(parent)
  {
    if Blank(parent) then None else Some(IdKey(parent.value))
  }

  /** `description ? description.trim() : ''`. */
  function DescriptionOf(description: Option<string>): (d: string)
    ensures IsTrimmed(d)
    ensures Blank(description) ==> d == ""
  {
    if Blank(description) then "" else TrimIsCore(description.value); Trim(description.value)
  }

  /* ------------------------------------------------------- the parent links */

  /** Whether `target` is reached from `from` by following parent links one or more
      times, never through a category in `visited`. */
  function Reaches(t: Table<Category>, from: CategoryId, target: CategoryId, visited: set<CategoryId>): bool
    decreases t.rows.Keys - visited
  {
    if from !in t.rows || from in visited then false
    else
      match t.rows[from].parentCategory
      case None => false
      case Some(p) => p == target || Reaches(t, p, target, visited + {from})
  }

  /** No category is its own ancestor. */
  ghost predicate Acyclic(t: Table<Category>) {
    forall c :: c in t.rows ==> !Reaches(t, c, c, {})
  }

  /** Every parent link names a stored category. */
  ghost predicate ParentsExist(t: Table<Category>) {
    forall c :: c in t.rows && t.rows[c].parentCategory.Some? ==> t.rows[c].parentCategory.value in t.rows
  }

  /** Fewer categories excluded, fewer walks cut short. */
  lemma {:induction false} ReachesAntitone(t: Table<Category>, from: CategoryId, target: CategoryId,
                                           v: set<CategoryId>, w: set<CategoryId>)
    requires v <= w && Reaches(t, from, target, w)
    ensures Reaches(t, from, target, v)
    decreases t.rows.Keys - w
  {
    var p := t.rows[from].parentCategory.value;
    if p != target {
      ReachesAntitone(t, p, target, v + {from}, w + {from});
    }
  }

  /** Changing the links of category `id` alone does not change where a walk goes
      that never arrives at `id`. */
  lemma {:induction false} ReachesFrame(t: Table<Category>, t': Table<Category>, id: CategoryId,
                                        from: CategoryId, target: CategoryId, v: set<CategoryId>)
    requires id in t.rows && t'.rows.Keys == t.rows.Keys
    requires forall c :: c in t.rows && c != id ==> t'.rows[c] == t.rows[c]
    requires from != id && !Reaches(t, from, id, v)
    ensures Reaches(t', from, target, v) == Reaches(t, from, target, v)
    decreases t.rows.Keys - v
  {
    if from in t.rows && from !in v && t.rows[from].parentCategory.Some? {
      var p := t.rows[from].parentCategory.value;
      if p != target {
        ReachesFrame(t, t', id, p, target, v + {from});
      }
    }
  }

  /* ------------------------------------------------------------ create */

  /** `createCategory`: a name is required and a given parent must exist; the
      stored category has the trimmed name and description and is active. */
  function CreateCategory(t: Table<Category>, cid: CategoryId, name: Option<string>,
                          description: Option<string>, parent: Option<string>): (r: Result<Category>)
    ensures NameMissing(name) ==> r == Err(CategoryNameRequired)
    ensures !NameMissing(name) && ParentOf(parent).Some? && ParentOf(parent).value !in t.rows
            ==> r == Err(ParentCategoryNotFound)
    ensures r.Ok? <==> && !NameMissing(name)
                       && (ParentOf(parent).None? || ParentOf(parent).value in t.rows)
                       && cid !in t.rows
    ensures r.Ok? ==> && r.value.name == Trim(name.value) && r.value.name != "" && IsTrimmed(r.value.name)
                      && r.value.description == Some(DescriptionOf(description))
                      && r.value.parentCategory == ParentOf(parent) && r.value.isActive
                      && (parent.None? || parent.value == "" ==> r.value.parentCategory.None?)
  {
    if NameMissing(name) then Err(CategoryNameRequired)
    else if ParentOf(parent).Some? && ParentOf(parent).value !in t.rows then Err(ParentCategoryNotFound)
    else
      TrimIdempotent(name.value);
      TrimmedIsFixed(DescriptionOf(description));
      var category := NewCategory(Trim(name.value), Some(DescriptionOf(description)), ParentOf(parent));
      if category.Ok? && cid in t.rows then Err(Unexpected(DuplicateKey)) else category
  }

  /** Creating keeps the stored names trimmed and non-empty and every parent link resolved. */
  lemma CreateKeepsInvariants(t: Table<Category>, cid: CategoryId, name: Option<string>,
                              description: Option<string>, parent: Option<string>)
    requires CategoriesInv(t) && ParentsExist(t)
    requires CreateCategory(t, cid, name, description, parent).Ok?
    ensures var t' := t.Insert(cid, CreateCategory(t, cid, name, description, parent).value);
            CategoriesInv(t') && ParentsExist(t')
  {
  }

  /* ------------------------------------------------------------ update */

  /** The checks `updateCategory` makes before writing, and the write: the name,
      then a parent string equal to the id in the path (compared as strings, before
      either is cast), then a missing parent, then a missing category. */
  function UpdateCategoryAsWritten(t: Table<Category>, id: string, name: Option<string>,
                                   description: Option<string>, parent: Option<string>): (r: Result<Category>)
    ensures NameMissing(name) ==> r == Err(CategoryNameRequired)
    ensures !NameMissing(name) && parent == Some(id) && id != "" ==> r == Err(SelfParent)
    ensures r.Ok? <==> && !NameMissing(name)
                       && (Blank(parent) || (parent.value != id && ParentOf(parent).value in t.rows))
                       && IdKey(id) in t.rows
    ensures !NameMissing(name) && Blank(parent) && IdKey(id) !in t.rows ==> r == Err(CategoryNotFound)
    ensures r.Ok? ==> && r.value.name == Trim(name.value) && r.value.name != "" && IsTrimmed(r.value.name)
                      && r.value.description == Some(DescriptionOf(description))
                      && r.value.parentCategory == ParentOf(parent)
                      && r.value.isActive == t.rows[IdKey(id)].isActive
  {
    if NameMissing(name) then Err(CategoryNameRequired)
    else if !Blank(parent) && parent.value == id then Err(SelfParent)
    else if ParentOf(parent).Some? && ParentOf(parent).value !in t.rows then Err(ParentCategoryNotFound)
    else if IdKey(id) !in t.rows then Err(CategoryNotFound)
    else
      TrimIsCore(name.value);
      Ok(t.rows[IdKey(id)].(name := Trim(name.value), description := Some(DescriptionOf(description)),
                            parentCategory := ParentOf(parent)))
  }

  /** The update with the parent compared with the category as ObjectIds, and refused
      when the category is already among its ancestors; this is the one the rest of
      the model uses. Every other outcome is as written. */
  function UpdateCategory(t: Table<Category>, id: string, name: Option<string>,
                          description: Option<string>, parent: Option<string>): (r: Result<Category>)
    ensures UpdateCategoryAsWritten(t, id, name, description, parent).Ok? && ParentOf(parent) == Some(IdKey(id))
            ==> r == Err(SelfParent)
    ensures UpdateCategoryAsWritten(t, id, name, description, parent).Ok? && ParentOf(parent).Some?
            && ParentOf(parent).value != IdKey(id) && Reaches(t, ParentOf(parent).value, IdKey(id), {})
            ==> r == Err(ParentCycle)
    ensures !(ParentOf(parent).Some? && (ParentOf(parent).value == IdKey(id)
                                         || Reaches(t, ParentOf(parent).value, IdKey(id), {})))
            ==> r == UpdateCategoryAsWritten(t, id, name, description, parent)
    ensures r.Err? ==> || UpdateCategoryAsWritten(t, id, name, description, parent).Err?
                       || r == Err(SelfParent) || r == Err(ParentCycle)
  {
    var written := UpdateCategoryAsWritten(t, id, name, description, parent);
    var link := ParentOf(parent);
    if written.Ok? && link == Some(IdKey(id)) then Err(SelfParent)
    else if written.Ok? && link.Some? && Reaches(t, link.value, IdKey(id), {}) then Err(ParentCycle)
    else written
  }

  /** After a successful update the updated category is not its own ancestor. */
  lemma UpdateMakesNoCycle(t: Table<Category>, id: string, name: Option<string>,
                           description: Option<string>, parent: Option<string>)
    requires UpdateCategory(t, id, name, description, parent).Ok?
    ensures var key := IdKey(id);
            !Reaches(t.Update(key, UpdateCategory(t, id, name, description, parent).value), key, key, {})
  {
    var key := IdKey(id);
    var c := UpdateCategory(t, id, name, description, parent).value;
    var t' := t.Update(key, c);
    if c.parentCategory.Some? {
      var p := c.parentCategory.value;
      assert p != key && !Reaches(t, p, key, {});
      if Reaches(t, p, key, {key}) {
        ReachesAntitone(t, p, key, {}, {key});
      }
      ReachesFrame(t, t', key, p, key, {key});
      assert {} + {key} == {key};
    }
  }

  /** Updating keeps the stored names trimmed and non-empty and every parent link resolved. */
  lemma UpdateKeepsInvariants(t: Table<Category>, id: string, name: Option<string>,
                              description: Option<string>, parent: Option<string>)
    requires CategoriesInv(t) && ParentsExist(t)
    requires UpdateCategory(t, id, name, description, parent).Ok?
    ensures var t' := t.Update(IdKey(id), UpdateCategory(t, id, name, description, parent).value);
            CategoriesInv(t') && ParentsExist(t')
  {
    t.UpdateKeepsWf(IdKey(id), UpdateCategory(t, id, name, description, parent).value);
  }

  /** The categories `A` under `B` and `B` at the top. */
  function TwoLevels(): Table<Category> {
    Table(["A", "B"], map["A" := Category("A", Some(""), Some("B"), true),
                          "B" := Category("B", Some(""), None, true)])
  }

  /** As written, moving `B` under `A` is accepted and makes `B` its own ancestor,
      in a tree that had no cycle before; the corrected update refuses it. */
  lemma UpdateAsWrittenMakesCycle()
    ensures Acyclic(TwoLevels()) && ParentsExist(TwoLevels())
    ensures var r := UpdateCategoryAsWritten(TwoLevels(), "B", Some("B"), None, Some("A"));
            && r.Ok? && Reaches(TwoLevels().Update("B", r.value), "B", "B", {})
    ensures UpdateCategory(TwoLevels(), "B", Some("B"), None, Some("A")) == Err(ParentCycle)
  {
    TwoLevelsAcyclic();
    var r := MoveBUnderA();
    CycleAfterMove(r);
    assert Reaches(TwoLevels(), "A", "B", {});
  }

  lemma TwoLevelsAcyclic()
    ensures Acyclic(TwoLevels()) && ParentsExist(TwoLevels())
  {
    var t := TwoLevels();
    assert !Reaches(t, "B", "B", {});
    assert !Reaches(t, "B", "A", {"A"});
    assert {} + {"A"} == {"A"};
    assert !Reaches(t, "A", "A", {});
  }

  lemma MoveBUnderA() returns (r: Category)
    ensures UpdateCategoryAsWritten(TwoLevels(), "B", Some("B"), None, Some("A")) == Ok(r)
    ensures r.parentCategory == Some("A")
  {
    NameBPresent();
    assert ParentOf(Some("A")) == Some("A");
    assert "A" in TwoLevels().rows && "B" in TwoLevels().rows;
    r := UpdateCategoryAsWritten(TwoLevels(), "B", Some("B"), None, Some("A")).value;
  }

  lemma NameBPresent()
    ensures !NameMissing(Some("B"))
  {
    assert !IsWhitespace('B');
    assert TrimStart("B") == "B";
    assert TrimEnd("B") == "B";
  }

  lemma CycleAfterMove(r: Category)
    requires r.parentCategory == Some("A")
    ensures Reaches(TwoLevels().Update("B", r), "B", "B", {})
  {
    var t' := TwoLevels().Update("B", r);
    assert {} + {"B"} == {"B"};
    assert Reaches(t', "A", "B", {"B"});
  }

  /** A stored id, as `ObjectId.toString` writes it, and the same id with its hexadecimal
      letter in upper case. */
  const Lower: string := "00000000000000000000000a"
  const Upper: string := "00000000000000000000000A"

  /** A single category at the top, stored under `Lower`. */
  function Lone(): Table<Category> {
    Table([Lower], map[Lower := Category("A", Some(""), None, true)])
  }

  /** The upper-case spelling casts to the stored id. */
  lemma UpperCastsToLower()
    ensures IsObjectIdShaped(Upper) && IdKey(Upper) == Lower && IdKey(Lower) == Lower
  {
    assert IsObjectIdShaped(Lower);
    IdKeyIgnoresCase(Lower, Upper);
    assert IdKey(Lower) == Lower;
  }

  /** As written, naming the category's own id in upper case as its parent passes the
      string comparison, the parent is found, and the category becomes its own parent;
      the corrected update refuses it. */
  lemma UpdateAsWrittenMakesSelfLoop()
    ensures Acyclic(Lone()) && ParentsExist(Lone())
    ensures var r := UpdateCategoryAsWritten(Lone(), Lower, Some("A"), None, Some(Upper));
            && r.Ok? && r.value.parentCategory == Some(Lower)
            && Reaches(Lone().Update(Lower, r.value), Lower, Lower, {})
    ensures UpdateCategory(Lone(), Lower, Some("A"), None, Some(Upper)) == Err(SelfParent)
  {
    UpperCastsToLower();
    assert !Reaches(Lone(), Lower, Lower, {});
    assert !NameMissing(Some("A")) by {
      assert !IsWhitespace('A');
      assert TrimStart("A") == "A";
      assert TrimEnd("A") == "A";
    }
    assert Upper != Lower by { assert Upper[23] != Lower[23]; }
    var r := UpdateCategoryAsWritten(Lone(), Lower, Some("A"), None, Some(Upper));
    assert r.Ok?;
  }

  /* ------------------------------------------------------------ delete */

  /** `deleteCategory`: refused while some category has this one as parent, even
      for an unknown id; otherwise the category must exist and is removed. */
  function DeleteCategory(t: Table<Category>, id: string): (r: Result<Table<Category>>)
    ensures SubCategories(t, IdKey(id)) != {} ==> r == Err(HasSubCategories)
    ensures SubCategories(t, IdKey(id)) == {} && IdKey(id) !in t.rows ==> r == Err(CategoryNotFound)
    ensures r.Ok? <==> SubCategories(t, IdKey(id)) == {} && IdKey(id) in t.rows
    ensures r.Ok? ==> && r.value.rows == t.rows - {IdKey(id)}
                      && (forall k :: k in r.value.order <==> k in t.order && k != IdKey(id))
  {
    var key := IdKey(id);
    if SubCategories(t, key) != {} then Err(HasSubCategories)
    else if key !in t.rows then Err(CategoryNotFound)
    else Ok(t.Delete(key))
  }

  /** Deleting keeps the stored names trimmed and non-empty and every parent link resolved. */
  lemma DeleteKeepsInvariants(t: Table<Category>, id: string)
    requires CategoriesInv(t) && ParentsExist(t)
    requires DeleteCategory(t, id).Ok?
    ensures CategoriesInv(DeleteCategory(t, id).value) && ParentsExist(DeleteCategory(t, id).value)
  {
    var t' := DeleteCategory(t, id).value;
    forall c | c in t'.rows && t'.rows[c].parentCategory.Some?
      ensures t'.rows[c].parentCategory.value in t'.rows
    {
      assert c !in SubCategories(t, IdKey(id));
    }
  }

  /* ------------------------------------------------------------ the handlers */

  method PostCategory(db: Database, cid: CategoryId, name: Option<string>, description: Option<string>,
                      parent: Option<string>) returns (r: Result<Category>)
    modifies db
    ensures r == CreateCategory(old(db.categories), cid, name, description, parent)
    ensures r.Ok? ==> db.categories == old(db.categories).Insert(cid, r.value)
    ensures r.Err? ==> db.categories == old(db.categories)
    ensures db.products == old(db.products) && db.sales == old(db.sales) && db.sessions == old(db.sessions)
  {
    if NameMissing(name) {
      return Err(CategoryNameRequired);
    }
    var link := ParentOf(parent);
    if link.Some? && link.value !in db.categories.rows {
      return Err(ParentCategoryNotFound);
    }
    var category := NewCategory(Trim(name.value), Some(DescriptionOf(description)), link);
    if category.Err? {
      return category;
    }
    if cid in db.categories.rows {
      return Err(Unexpected(DuplicateKey));
    }
    db.categories := db.categories.Insert(cid, category.value);
    r := category;
  }

  /** The update handler, with the ancestor check of the corrected update. */
  method PutCategory(db: Database, id: string, name: Option<string>, description: Option<string>,
                     parent: Option<string>) returns (r: Result<Category>)
    modifies db
    ensures r == UpdateCategory(old(db.categories), id, name, description, parent)
    ensures r.Ok? ==> db.categories == old(db.categories).Update(IdKey(id), r.value)
    ensures r.Err? ==> db.categories == old(db.categories)
    ensures db.products == old(db.products) && db.sales == old(db.sales) && db.sessions == old(db.sessions)
  {
    if NameMissing(name) {
      return Err(CategoryNameRequired);
    }
    var link := ParentOf(parent);
    if link.Some? {
      if parent.value == id {
        return Err(SelfParent);
      }
      if link.value !in db.categories.rows {
        return Err(ParentCategoryNotFound);
      }
    }
    var key := IdKey(id);
    if key !in db.categories.rows {
      return Err(CategoryNotFound);
    }
    if link == Some(key) {
      return Err(SelfParent);
    }
    if link.Some? && Reaches(db.categories, link.value, key, {}) {
      return Err(ParentCycle);
    }
    var category := db.categories.rows[key].(name := Trim(name.value), description := Some(DescriptionOf(description)),
                                             parentCategory := link);
    db.categories := db.categories.Update(key, category);
    r := Ok(category);
  }

  method RemoveCategory(db: Database, id: string) returns (r: Result<()>)
    modifies db
    ensures var spec := DeleteCategory(old(db.categories), id);
            && (spec.Err? ==> r == Err(spec.error) && db.categories == old(db.categories))
            && (spec.Ok? ==> r.Ok? && db.categories == spec.value)
    ensures db.products == old(db.products) && db.sales == old(db.sales) && db.sessions == old(db.sessions)
  {
    var key := IdKey(id);
    if SubCategories(db.categories, key) != {} {
      return Err(HasSubCategories);
    }
    if key !in db.categories.rows {
      return Err(CategoryNotFound);
    }
    db.categories := db.categories.Delete(key);
    r := Ok(());
  }
}
