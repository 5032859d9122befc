/**
 * Goods categories administered by the back office: unique codes, defaults for a
 * new category, partial updates, deletion only of unused categories, and the batch
 * re-ordering of the display order.
 */
module CategoryService {
  import opened Common

  /** A new category without a display order goes last. */
  const DEFAULT_DISPLAY_ORDER := 999
  /** A new category without a status is listed. */
  const DEFAULT_STATUS := 1

  /** A goods_category row; every column the service may set to null is an Option. */
  datatype Category = Category(
    id: int,
    name: Option<string>,
    code: Option<string>,
    displayOrder: Option<int>,
    status: Option<int>,
    createTime: int,
    updateTime: int)

  /** The create and update request: absent fields are null. */
  datatype CategoryForm = CategoryForm(name: Option<string>, code: Option<string>, displayOrder: Option<int>, status: Option<int>)

  /** One entry of a batch re-ordering. */
  datatype OrderItem = OrderItem(id: Option<int>, displayOrder: Option<int>)

  datatype CategoryError = CodeExists | CategoryNotFound | CategoryHasGoods

  datatype CategoryOutcome<T> = Done(value: T) | Failed(error: CategoryError)

  /**
   * `findByCode` finds a category other than `self` holding `code`. A null code
   * matches no row, as `code = NULL` is never true in SQL.
   */
  predicate CodeTakenByOther(categories: map<int, Category>, code: Option<string>, self: Option<int>) {
    code.Some? && exists k :: k in categories && categories[k].code == code && Some(k) != self
  }

  /** No two categories share a non-null code. */
  ghost predicate CodesUnique(categories: map<int, Category>) {
    forall a, b :: a in categories && b in categories && categories[a].code.Some? && categories[a].code == categories[b].code ==> a == b
  }

  /** A category's own code never counts as taken when it is updated. */
  lemma OwnCodeAccepted(categories: map<int, Category>, id: int)
    requires CodesUnique(categories) && id in categories
    ensures !CodeTakenByOther(categories, categories[id].code, Some(id))
  {
  }

  /** The row `createCategory` inserts. */
  function NewCategory(id: int, form: CategoryForm, nowMs: int): (c: Category)
    ensures c.id == id && c.name == form.name && c.code == form.code
    ensures c.displayOrder == if form.displayOrder.Some? then form.displayOrder else Some(DEFAULT_DISPLAY_ORDER)
    ensures c.status == if form.status.Some? then form.status else Some(DEFAULT_STATUS)
    ensures c.displayOrder.Some? && c.status.Some?
  {
    Category(id, form.name, form.code,
             if form.displayOrder.None? then Some(DEFAULT_DISPLAY_ORDER) else form.displayOrder,
             if form.status.None? then Some(DEFAULT_STATUS) else form.status,
             nowMs, nowMs)
  }

  /** The update leaves every field whose form value is null as it was. */
  function Patched(c: Category, form: CategoryForm, nowMs: int): (r: Category)
    ensures r.id == c.id && r.createTime == c.createTime && r.updateTime == nowMs
    ensures r.name == (if form.name.Some? then form.name else c.name)
    ensures r.code == (if form.code.Some? then form.code else c.code)
    ensures r.displayOrder == (if form.displayOrder.Some? then form.displayOrder else c.displayOrder)
    ensures r.status == (if form.status.Some? then form.status else c.status)
  {
    var c1 := if form.name.Some? then c.(name := form.name) else c;
    var c2 := if form.code.Some? then c1.(code := form.code) else c1;
    var c3 := if form.displayOrder.Some? then c2.(displayOrder := form.displayOrder) else c2;
    var c4 := if form.status.Some? then c3.(status := form.status) else c3;
    c4.(updateTime := nowMs)
  }

  /** Patching twice with one form is patching once. */
  lemma PatchIdempotent(c: Category, form: CategoryForm, nowMs: int)
    ensures Patched(Patched(c, form, nowMs), form, nowMs) == Patched(c, form, nowMs)
  {
  }

  /** Some goods row refers to the category. */
  predicate InUse(goodsCategory: map<int, int>, id: int) {
    exists g :: g in goodsCategory && goodsCategory[g] == id
  }

  /** Every goods row's category exists. */
  ghost predicate ReferencesResolve(goodsCategory: map<int, int>, categories: map<int, Category>) {
    forall g :: g in goodsCategory ==> goodsCategory[g] in categories
  }

  /** `getCategoryById`. */
  function CategoryById(categories: map<int, Category>, id: int): (r: CategoryOutcome<Category>)
    ensures r.Failed? <==> id !in categories
    ensures r.Failed? ==> r.error == CategoryNotFound
    ensures r.Done? ==> r.value == categories[id]
  {
    if id in categories then Done(categories[id]) else Failed(CategoryNotFound)
  }

  /** The display order set by the last entry naming `id`, if any entry does. */
  function LastOrderFor(orders: seq<OrderItem>, id: int): (r: Option<Option<int>>)
    ensures r.None? <==> forall i :: 0 <= i < |orders| ==> orders[i].id != Some(id)
    ensures r.Some? ==>
      exists i :: (0 <= i < |orders| && orders[i].id == Some(id) && orders[i].displayOrder == r.value
                   && forall j :: i < j < |orders| ==> orders[j].id != Some(id))
    decreases |orders|
  {
    if orders == [] then None
    else if orders[|orders| - 1].id == Some(id) then Some(orders[|orders| - 1].displayOrder)
    else
      var r := LastOrderFor(orders[..|orders| - 1], id);
      assert forall i :: 0 <= i < |orders| - 1 ==> orders[..|orders| - 1][i] == orders[i];
      r
  }

  /** One step of the batch: a known id takes the new display order; a null or unknown id is skipped. */
  function Reorder(categories: map<int, Category>, item: OrderItem, nowMs: int): map<int, Category> {
    if item.id.Some? && item.id.value in categories
    then categories[item.id.value := categories[item.id.value].(displayOrder := item.displayOrder, updateTime := nowMs)]
    else categories
  }

  /** The batch applied entry by entry. */
  function Reordered(categories: map<int, Category>, orders: seq<OrderItem>, nowMs: int): map<int, Category>
    decreases |orders|
  {
    if orders == [] then categories else Reorder(Reordered(categories, orders[..|orders| - 1], nowMs), orders[|orders| - 1], nowMs)
  }

  /**
   * After a batch, the set of categories is the same; each category named by some
   * entry has the display order of the last entry naming it; nothing else changes.
   */
  lemma {:induction false} ReorderedMeaning(categories: map<int, Category>, orders: seq<OrderItem>, nowMs: int, id: int)
    ensures var r := Reordered(categories, orders, nowMs);
      && r.Keys == categories.Keys
      && (id in categories ==>
           && r[id].name == categories[id].name && r[id].code == categories[id].code && r[id].status == categories[id].status
           && r[id].displayOrder == (if LastOrderFor(orders, id).Some? then LastOrderFor(orders, id).value else categories[id].displayOrder))
    decreases |orders|
  {
    if orders != [] {
      ReorderedMeaning(categories, orders[..|orders| - 1], nowMs, id);
      var init := orders[..|orders| - 1];
      assert orders[|orders| - 1].id != Some(id) ==> LastOrderFor(orders, id) == LastOrderFor(init, id);
      var r0 := Reordered(categories, init, nowMs);
      var item := orders[|orders| - 1];
      if item.id.Some? && item.id.value in r0 {
        assert item.id.value in categories;
      }
    }
  }

  /** Re-ordering changes no code, so codes stay unique. */
  lemma ReorderedKeepsCodes(categories: map<int, Category>, orders: seq<OrderItem>, nowMs: int)
    requires CodesUnique(categories)
    ensures CodesUnique(Reordered(categories, orders, nowMs))
  {
    var r := Reordered(categories, orders, nowMs);
    forall id | id in categories
      ensures id in r && r[id].code == categories[id].code
    {
      ReorderedMeaning(categories, orders, nowMs, id);
    }
    ReorderedMeaning(categories, orders, nowMs, 0);
  }

  class CategoryDb {
    var categories: map<int, Category>
    var nextId: int

    ghost predicate Valid()
      reads this
    {
      && CodesUnique(categories)
      && (forall k :: k in categories ==> categories[k].id == k && k < nextId)
    }

    constructor()
      ensures Valid() && categories == map[]
    {
      categories := map[];
      nextId := 1;
    }

    /** `createCategory`: refused when the code is taken; otherwise inserted with the defaults. */
    method CreateCategory(form: CategoryForm, nowMs: int) returns (r: CategoryOutcome<Category>)
      requires Valid()
      modifies this
      ensures Valid()
      ensures r.Failed? <==> CodeTakenByOther(old(categories), form.code, None)
      ensures r.Failed? ==> r.error == CodeExists && categories == old(categories)
      ensures r.Done? ==> r.value == NewCategory(old(nextId), form, nowMs) && categories == old(categories)[old(nextId) := r.value]
    {
      if CodeTakenByOther(categories, form.code, None) {
        return Failed(CodeExists);
      }
      var c := NewCategory(nextId, form, nowMs);
      categories := categories[nextId := c];
      nextId := nextId + 1;
      return Done(c);
    }

    /**
     * `updateCategory`: refused for an unknown id and for a code held by another
     * category; otherwise only the non-null fields of the form are written.
     */
    method UpdateCategory(id: int, form: CategoryForm, nowMs: int) returns (r: CategoryOutcome<Category>)
      requires Valid()
      modifies this
      ensures Valid()
      ensures r == Failed(CategoryNotFound) <==> id !in old(categories)
      ensures r == Failed(CodeExists) <==> id in old(categories) && CodeTakenByOther(old(categories), form.code, Some(id))
      ensures r.Done? <==> id in old(categories) && !CodeTakenByOther(old(categories), form.code, Some(id))
      ensures r.Failed? ==> categories == old(categories)
      ensures r.Done? ==> r.value == Patched(old(categories)[id], form, nowMs) && categories == old(categories)[id := r.value]
      ensures nextId == old(nextId)
    {
      if id !in categories {
        return Failed(CategoryNotFound);
      }
      if CodeTakenByOther(categories, form.code, Some(id)) {
        return Failed(CodeExists);
      }
      var c := categories[id];
      if form.name.Some? {
        c := c.(name := form.name);
      }
      if form.code.Some? {
        c := c.(code := form.code);
      }
      if form.displayOrder.Some? {
        c := c.(displayOrder := form.displayOrder);
      }
      if form.status.Some? {
        c := c.(status := form.status);
      }
      c := c.(updateTime := nowMs);
      categories := categories[id := c];
      return Done(c);
    }

    /**
     * `deleteCategory`: refused for an unknown id and for a category any goods row
     * uses (`goodsCategory` maps each goods id to its category); otherwise removed.
     */
    method DeleteCategory(id: int, goodsCategory: map<int, int>) returns (r: CategoryOutcome<()>)
      requires Valid()
      modifies this
      ensures Valid()
      ensures r == Failed(CategoryNotFound) <==> id !in old(categories)
      ensures r == Failed(CategoryHasGoods) <==> id in old(categories) && InUse(goodsCategory, id)
      ensures r.Done? <==> id in old(categories) && !InUse(goodsCategory, id)
      ensures r.Failed? ==> categories == old(categories)
      ensures r.Done? ==> categories == old(categories) - {id}
      ensures ReferencesResolve(goodsCategory, old(categories)) ==> ReferencesResolve(goodsCategory, categories)
      ensures nextId == old(nextId)
    {
      if id !in categories {
        return Failed(CategoryNotFound);
      }
      if InUse(goodsCategory, id) {
        return Failed(CategoryHasGoods);
      }
      categories := categories - {id};
      return Done(());
    }

    /** `updateCategoryOrder`: each entry in turn; a null or unknown id is skipped. */
    method UpdateCategoryOrder(orders: seq<OrderItem>, nowMs: int)
      requires Valid()
      modifies this
      ensures Valid()
      ensures categories == Reordered(old(categories), orders, nowMs)
      ensures nextId == old(nextId)
    {
      var i := 0;
      while i < |orders|
        invariant 0 <= i <= |orders|
        invariant categories == Reordered(old(categories), orders[..i], nowMs)
        invariant Valid() && nextId == old(nextId)
      {
        var item := orders[i];
        assert orders[..i + 1][..i] == orders[..i];
        if item.id.Some? && item.id.value in categories {
          var c := categories[item.id.value];
          c := c.(displayOrder := item.displayOrder, updateTime := nowMs);
          categories := categories[item.id.value := c];
        }
        i := i + 1;
      }
      assert orders[..|orders|] == orders;
    }
  }
}
