/** The render cache of src/render.ts: a map from item id to the rendered
    entry of that item, plus the list of rendered elements in the order they
    were rendered or taken over. The framework root behind an entry is
    opaque here: an entry holds the model it was created for, the content
    of its model store, its element and the number of times its disposer
    has run. */
module Render {
  import opened Common

  /** `RenderedItem`: `model` is the model the entry was rendered for,
      `shown` is what `setModel` last put in its store, `element` the node
      identity of its element, and `disposed` counts calls of `dispose`. */
  class RenderedItem {
    const model: Model
    var shown: Model
    const element: nat
    var disposed: nat

    constructor (item: Model, element: nat)
      ensures model == item && shown == item && this.element == element && disposed == 0
    {
      model := item;
      shown := item;
      this.element := element;
      disposed := 0;
    }

    /** The disposer of the entry's root. */
    method Dispose()
      modifies this
      ensures disposed == old(disposed) + 1 && shown == old(shown)
    {
      disposed := disposed + 1;
    }
  }

  /** `Render`. After `dispose` the map and the list are deleted; `alive`
      is false from then on and every other operation demands it true. */
  class Render {
    var renderedItems: OMap<Id, RenderedItem>
    var items: seq<nat>
    var alive: bool

    /** Every entry is stored under the id of its own model, so two ids
        never share an entry. */
    ghost predicate Valid()
      reads this
    {
      && renderedItems.Valid()
      && (forall id :: id in renderedItems.values ==> renderedItems.values[id].model.id == id)
    }

    /** The entries of the cache. */
    ghost function Entries(): set<RenderedItem>
      reads this
    {
      renderedItems.values.Values
    }

    constructor ()
      ensures Valid() && alive
      ensures renderedItems.Size() == 0 && items == []
    {
      renderedItems := EmptyMap();
      items := [];
      alive := true;
    }

    /** `has`. */
    predicate Has(id: Id)
      reads this
      requires alive
    {
      renderedItems.Has(id)
    }

    /** `get`. */
    function Get(id: Id): Option<RenderedItem>
      reads this
      requires alive
    {
      renderedItems.Get(id)
    }

    /** `delete`: drops the entry without disposing it and tells whether
        there was one; the element list is left as it is. */
    method Delete(id: Id) returns (deleted: bool)
      requires alive && Valid()
      modifies this
      ensures alive && Valid()
      ensures deleted == old(Has(id)) && !Has(id)
      ensures forall other :: other != id ==> Get(other) == old(Get(other))
      ensures renderedItems == old(renderedItems).Delete(id) && items == old(items)
    {
      deleted := renderedItems.Has(id);
      renderedItems := renderedItems.Delete(id);
    }

    /** `isModelChanged`: false when no entry is stored under the model's
        id; otherwise whether the entry was rendered for another model
        object. */
    function IsModelChanged(newModel: Model): (r: bool)
      reads this
      requires alive && Valid()
      ensures r <==> Has(newModel.id) && renderedItems.values[newModel.id].model.ref != newModel.ref
    {
      match renderedItems.Get(newModel.id)
      case None => false
      case Some(entry) => entry.model != newModel
    }

    /** `updateModel`: the stored entry's store takes the new model's
        content; the entry keeps the model it was rendered for, so the
        model still counts as changed afterwards. Nothing happens when no
        entry is stored under the id. */
    method UpdateModel(model: Model)
      requires alive && Valid()
      modifies Entries()
      ensures Has(model.id) ==> renderedItems.values[model.id].shown == model
      ensures forall e :: e in Entries() && e.model.id != model.id ==> e.shown == old(e.shown)
      ensures forall e :: e in Entries() ==> e.disposed == old(e.disposed)
      ensures IsModelChanged(model) == old(IsModelChanged(model))
    {
      if renderedItems.Has(model.id) {
        var entry := renderedItems.values[model.id];
        entry.shown := model;
      }
    }

    /** `takeItemFrom`: moves the entry stored under `id` in `source` into
        this cache without disposing it and appends its element to this
        cache's list; nothing changes when `source` has no such entry. The
        source may be this very cache, which then only loses the entry. */
    method TakeItemFrom(id: Id, source: Render)
      requires alive && Valid() && source.alive && source.Valid()
      modifies this, source
      ensures alive && Valid() && source.alive && source.Valid()
      ensures old(source.Get(id)).None? ==>
                && renderedItems == old(renderedItems) && items == old(items)
                && source.renderedItems == old(source.renderedItems) && source.items == old(source.items)
      ensures old(source.Get(id)).Some? ==>
                var e := old(source.Get(id)).value;
                && items == old(items) + [e.element]
                && source.renderedItems == old(source.renderedItems).Delete(id)
                && (source != this ==> renderedItems == old(renderedItems).Set(id, e) && source.items == old(source.items))
    {
      var found := source.Get(id);
      if found.None? {
        return;
      }
      var entry := found.value;
      renderedItems := renderedItems.Set(id, entry);
      items := items + [entry.element];
      assert source == this ==> source.renderedItems == old(source.renderedItems);
      var _ := source.Delete(id);
    }

    /** `render`: creates a new entry for `item` whose root produced the
        element `element`, stores it under the item's id (an entry already
        stored there is replaced and not disposed), appends the element to
        the list and returns the entry. */
    method RenderItem(item: Model, element: nat) returns (r: RenderedItem)
      requires alive && Valid()
      modifies this
      ensures alive && Valid() && fresh(r)
      ensures r.model == item && r.shown == item && r.element == element && r.disposed == 0
      ensures renderedItems == old(renderedItems).Set(item.id, r) && items == old(items) + [element]
    {
      r := new RenderedItem(item, element);
      renderedItems := renderedItems.Set(item.id, r);
      items := items + [element];
    }

    /** `dispose`: runs the disposer of every stored entry exactly once,
        in insertion order, then deletes the map and the list. */
    method Dispose()
      requires alive && Valid()
      modifies this, Entries()
      ensures !alive && Valid() && renderedItems.Size() == 0 && items == []
      ensures forall e :: e in old(Entries()) ==> e.disposed == old(e.disposed) + 1
      ensures forall e :: e in old(Entries()) ==> e.shown == old(e.shown)
    {
      var keys := renderedItems.keys;
      var values := renderedItems.values;
      for i := 0 to |keys|
        invariant renderedItems == old(renderedItems) && items == old(items) && alive
        invariant forall j :: 0 <= j < i ==> values[keys[j]].disposed == old(values[keys[j]].disposed) + 1
        invariant forall j :: i <= j < |keys| ==> values[keys[j]].disposed == old(values[keys[j]].disposed)
        invariant forall j :: 0 <= j < |keys| ==> values[keys[j]].shown == old(values[keys[j]].shown)
      {
        var entry := values[keys[i]];
        forall j | 0 <= j < |keys| && j != i
          ensures values[keys[j]] != entry
        {
          DistinctAt(keys, i, j);
        }
        entry.Dispose();
      }
      forall e | e in old(Entries())
        ensures e.disposed == old(e.disposed) + 1
      {
        var id :| id in values && values[id] == e;
        var j :| 0 <= j < |keys| && keys[j] == id;
      }
      alive := false;
      renderedItems := EmptyMap();
      items := [];
    }
  }
}
