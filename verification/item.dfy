/** The Root item component: an item type with `refreshed`/`damaged` flags,
    its copy and its equality. Object identity is modelled by a store of
    references, so that "a copy is a new object" can be stated. */
module Items {
  datatype ItemType = sword | boot | crossbow | torch | hammer | tea | coin | bag

  /** The component fields an item carries. `componentType` stands for the
      component type given to the constructor. */
  datatype Item = Item(componentType: nat, itemType: ItemType, componentID: int, refreshed: bool, damaged: bool)

  /** Both constructors: the superclass supplies the component id when none
      is given (`id`), and every new item is refreshed and undamaged. */
  function NewItem(componentType: nat, itemType: ItemType, id: int): (r: Item)
    ensures r.refreshed && !r.damaged
    ensures r.itemType == itemType && r.componentID == id && r.componentType == componentType
  {
    Item(componentType, itemType, id, true, false)
  }

  /** `copy`: a new item with the same type and id, then both flags copied. */
  function Copy(i: Item): (r: Item)
    ensures r.componentType == i.componentType && r.itemType == i.itemType && r.componentID == i.componentID
    ensures r.damaged == i.damaged && r.refreshed == i.refreshed
  {
    var made := NewItem(i.componentType, i.itemType, i.componentID);
    made.(damaged := i.damaged, refreshed := i.refreshed)
  }

  /** `equals` on two item values, given what the superclass comparison
      answered (`superEqual`); the identity shortcut is `ItemEqualsAt`. */
  predicate FieldsEqual(a: Item, b: Item, superEqual: bool)
  {
    superEqual && a.itemType == b.itemType && a.damaged == b.damaged
      && a.refreshed == b.refreshed && a.componentID == b.componentID
  }

  type Ref = nat

  /** A heap of items; `next` is the reference the next allocation returns. */
  datatype Store = Store(items: map<Ref, Item>, next: Ref)

  predicate Allocated(st: Store)
  {
    forall r :: r in st.items ==> r < st.next
  }

  /** `equals(this, obj)`: the same object, or equal fields and an equal
      superclass part. `superEquals` is the superclass comparison, which is
      not part of this model. */
  function ItemEqualsAt(st: Store, a: Ref, b: Ref, superEquals: (Item, Item) -> bool): (r: bool)
    requires a in st.items && b in st.items
    ensures a == b ==> r
    ensures a != b ==> (r <==>
      && superEquals(st.items[a], st.items[b])
      && st.items[a].itemType == st.items[b].itemType
      && st.items[a].damaged == st.items[b].damaged
      && st.items[a].refreshed == st.items[b].refreshed
      && st.items[a].componentID == st.items[b].componentID)
  {
    a == b || FieldsEqual(st.items[a], st.items[b], superEquals(st.items[a], st.items[b]))
  }

  /** `copy` on the heap: allocate a new reference holding the copied item. */
  function CopyAt(st: Store, a: Ref): (r: (Store, Ref))
    requires Allocated(st) && a in st.items
    ensures Allocated(r.0)
    ensures r.1 !in st.items && r.1 in r.0.items && r.1 != a
    ensures r.0.items == st.items[r.1 := Copy(st.items[a])]
  {
    (Store(st.items[st.next := Copy(st.items[a])], st.next + 1), st.next)
  }

  /** Setting a flag on one object. */
  function SetFlags(st: Store, a: Ref, refreshed: bool, damaged: bool): (r: Store)
    requires a in st.items
    ensures r.next == st.next && r.items.Keys == st.items.Keys
    ensures r.items[a].refreshed == refreshed && r.items[a].damaged == damaged
    ensures forall b :: b in st.items && b != a ==> r.items[b] == st.items[b]
  {
    Store(st.items[a := st.items[a].(refreshed := refreshed, damaged := damaged)], st.next)
  }

  /** A copy equals its original exactly when the superclass parts compare
      equal, and changing the copy's flags afterwards leaves the original
      as it was. */
  lemma CopyIsIndependent(st: Store, a: Ref, refreshed: bool, damaged: bool, superEquals: (Item, Item) -> bool)
    requires Allocated(st) && a in st.items
    ensures
      var (st1, c) := CopyAt(st, a);
      && (ItemEqualsAt(st1, c, a, superEquals) <==> superEquals(st1.items[c], st1.items[a]))
      && SetFlags(st1, c, refreshed, damaged).items[a] == st.items[a]
  {
  }
}
