/** update_order_images.php: the one-off migration that fills in missing
    images of stored order lines from the catalog. Old orders may lack the
    `image` and `size` keys altogether, so their lines are read here in a
    raw form that tells an absent key from a null one. */
module OrderImages {
  import opened Common
  import opened Products

  /** A stored field: absent, null (`Nil`), or a string. */
  datatype Slot = Absent | Nil | Str(s: string)

  /** A stored order line: the product id, the two repaired fields, and
      the other fields (name, quantity, price), which the migration
      copies. */
  datatype RawLine = RawLine(productId: string, image: Slot, size: Slot, rest: Body)

  /** `!isset($item['image']) || empty($item['image'])`: absent, null, ''
      and '0' all count as missing. */
  predicate MissingImage(line: RawLine) {
    match line.image
    case Absent => true
    case Nil => true
    case Str(s) => s == "" || s == "0"
  }

  /** The repair of one line: a missing image is taken from the product's
      `image` field when the product is found and the field is set, and is
      null otherwise (its `images` are never consulted); an absent size
      becomes null. */
  function RepairLine(line: RawLine, catalog: map<Id, Product>): (r: RawLine)
    ensures r.productId == line.productId && r.rest == line.rest
    ensures !MissingImage(line) ==> r.image == line.image
    ensures MissingImage(line) ==>
      r.image == (match Find(catalog, line.productId)
                  case Some(p) => (if p.image.Some? then Str(p.image.value) else Nil)
                  case None => Nil)
    ensures r.size == (if line.size.Absent? then Nil else line.size)
    ensures r.image != Absent && r.size != Absent
  {
    var image :=
      if !MissingImage(line) then line.image
      else
        match Find(catalog, line.productId)
        case Some(p) => if p.image.Some? then Str(p.image.value) else Nil
        case None => Nil;
    var size := if line.size.Absent? then Nil else line.size;
    RawLine(line.productId, image, size, line.rest)
  }

  /** Repairing a repaired line changes nothing: a fill that is still
      empty is refilled with the same value. */
  lemma RepairIdempotent(line: RawLine, catalog: map<Id, Product>)
    ensures RepairLine(RepairLine(line, catalog), catalog) == RepairLine(line, catalog)
  {
  }

  /** The line-by-line repair of an order. */
  function Repaired(items: seq<RawLine>, catalog: map<Id, Product>): (r: seq<RawLine>)
    ensures |r| == |items| && forall i :: 0 <= i < |items| ==> r[i] == RepairLine(items[i], catalog)
  {
    seq(|items|, i requires 0 <= i < |items| => RepairLine(items[i], catalog))
  }

  /** `$needsUpdate`: some line misses its image. */
  predicate NeedsUpdate(items: seq<RawLine>) {
    exists i :: 0 <= i < |items| && MissingImage(items[i])
  }

  /** The inner loop: the repaired lines in order, and whether any line
      missed its image. */
  method RepairItems(items: seq<RawLine>, catalog: map<Id, Product>) returns (updated: seq<RawLine>, needsUpdate: bool)
    ensures updated == Repaired(items, catalog)
    ensures needsUpdate <==> NeedsUpdate(items)
  {
    updated := [];
    needsUpdate := false;
    var i := 0;
    while i < |items|
      invariant 0 <= i <= |items|
      invariant updated == Repaired(items[..i], catalog)
      invariant needsUpdate <==> NeedsUpdate(items[..i])
    {
      var item := items[i];
      if MissingImage(item) {
        needsUpdate := true;
      }
      assert items[..i + 1] == items[..i] + [item];
      updated := updated + [RepairLine(item, catalog)];
      i := i + 1;
    }
    assert items[..i] == items;
  }

  /** The orders the migration writes: those needing an update whose
      write does not fail. */
  predicate Written(docs: map<Id, seq<RawLine>>, id: Id, fails: set<Id>)
    requires id in docs
  {
    NeedsUpdate(docs[id]) && id !in fails
  }

  /** What the migration leaves of the order `id` with lines `items`. */
  function Fixed(items: seq<RawLine>, id: Id, catalog: map<Id, Product>, fails: set<Id>): seq<RawLine> {
    if NeedsUpdate(items) && id !in fails then Repaired(items, catalog) else items
  }

  /** The collection after the migration. */
  function Migrated(docs: map<Id, seq<RawLine>>, catalog: map<Id, Product>, fails: set<Id>): (r: map<Id, seq<RawLine>>)
    ensures r.Keys == docs.Keys
    ensures forall id :: id in docs && Written(docs, id, fails) ==> r[id] == Repaired(docs[id], catalog)
    ensures forall id :: id in docs && !Written(docs, id, fails) ==> r[id] == docs[id]
  {
    map id | id in docs :: Fixed(docs[id], id, catalog, fails)
  }

  /** The collection once the orders `ids` have been handled, in order. */
  function Partial(docs: map<Id, seq<RawLine>>, ids: seq<Id>, catalog: map<Id, Product>, fails: set<Id>): map<Id, seq<RawLine>>
    requires forall k :: 0 <= k < |ids| ==> ids[k] in docs
  {
    if ids == [] then docs
    else
      var id := ids[|ids| - 1];
      Partial(docs, ids[..|ids| - 1], catalog, fails)[id := Fixed(docs[id], id, catalog, fails)]
  }

  /** The handled orders are fixed, the others untouched, and no order is
      added or removed. */
  lemma {:induction false} PartialFacts(docs: map<Id, seq<RawLine>>, ids: seq<Id>, catalog: map<Id, Product>, fails: set<Id>)
    requires forall k :: 0 <= k < |ids| ==> ids[k] in docs
    ensures Partial(docs, ids, catalog, fails).Keys == docs.Keys
    ensures forall id :: id in docs ==>
      Partial(docs, ids, catalog, fails)[id] == if id in ids then Fixed(docs[id], id, catalog, fails) else docs[id]
  {
    if ids != [] {
      var prefix := ids[..|ids| - 1];
      PartialFacts(docs, prefix, catalog, fails);
      assert ids == prefix + [ids[|ids| - 1]];
      assert forall id :: id in ids <==> id in prefix || id == ids[|ids| - 1];
    }
  }

  /** Handling every order yields the migrated collection. */
  lemma PartialCoversAll(docs: map<Id, seq<RawLine>>, ids: seq<Id>, catalog: map<Id, Product>, fails: set<Id>)
    requires forall id :: id in docs <==> id in ids
    ensures Partial(docs, ids, catalog, fails) == Migrated(docs, catalog, fails)
  {
    PartialFacts(docs, ids, catalog, fails);
  }

  /** Running the migration a second time, against the same catalog and
      the same failing writes, changes nothing. */
  lemma MigrationIdempotent(docs: map<Id, seq<RawLine>>, catalog: map<Id, Product>, fails: set<Id>)
    ensures Migrated(Migrated(docs, catalog, fails), catalog, fails) == Migrated(docs, catalog, fails)
  {
    var once := Migrated(docs, catalog, fails);
    forall id | id in once
      ensures Fixed(once[id], id, catalog, fails) == once[id]
    {
      if Written(docs, id, fails) {
        var items := docs[id];
        forall k | 0 <= k < |items| {
          RepairIdempotent(items[k], catalog);
        }
        assert Repaired(Repaired(items, catalog), catalog) == Repaired(items, catalog);
      }
    }
  }

  /** `$updatedCount` over the orders `ids`: written orders whose lines
      actually changed (MongoDB's modified count). */
  function UpdatedCount(ids: seq<Id>, docs: map<Id, seq<RawLine>>, catalog: map<Id, Product>, fails: set<Id>): (n: nat)
    requires forall k :: 0 <= k < |ids| ==> ids[k] in docs
    ensures n <= |ids|
  {
    if ids == [] then 0
    else
      var id := ids[|ids| - 1];
      UpdatedCount(ids[..|ids| - 1], docs, catalog, fails)
        + (if Written(docs, id, fails) && Repaired(docs[id], catalog) != docs[id] then 1 else 0)
  }

  /** `$errorCount` over the orders `ids`: writes that failed. */
  function ErrorCount(ids: seq<Id>, docs: map<Id, seq<RawLine>>, fails: set<Id>): (n: nat)
    requires forall k :: 0 <= k < |ids| ==> ids[k] in docs
    ensures n <= |ids|
  {
    if ids == [] then 0
    else
      var id := ids[|ids| - 1];
      ErrorCount(ids[..|ids| - 1], docs, fails) + (if NeedsUpdate(docs[id]) && id in fails then 1 else 0)
  }

  /** Handling one more order of the snapshot: its repair is added to the
      partial migration and its outcome to the counts. */
  lemma Step(docs: map<Id, seq<RawLine>>, ids: seq<Id>, i: nat, catalog: map<Id, Product>, fails: set<Id>)
    requires i < |ids| && forall k :: 0 <= k < |ids| ==> ids[k] in docs
    ensures var id := ids[i];
      && Partial(docs, ids[..i + 1], catalog, fails) == Partial(docs, ids[..i], catalog, fails)[id := Fixed(docs[id], id, catalog, fails)]
      && UpdatedCount(ids[..i + 1], docs, catalog, fails) == UpdatedCount(ids[..i], docs, catalog, fails)
           + (if Written(docs, id, fails) && Repaired(docs[id], catalog) != docs[id] then 1 else 0)
      && ErrorCount(ids[..i + 1], docs, fails) == ErrorCount(ids[..i], docs, fails) + (if NeedsUpdate(docs[id]) && id in fails then 1 else 0)
  {
    assert ids[..i + 1][..i] == ids[..i];
  }

  /** Each order is counted at most once, as updated or as failed. */
  lemma {:induction false} CountsBounded(ids: seq<Id>, docs: map<Id, seq<RawLine>>, catalog: map<Id, Product>, fails: set<Id>)
    requires forall k :: 0 <= k < |ids| ==> ids[k] in docs
    ensures UpdatedCount(ids, docs, catalog, fails) + ErrorCount(ids, docs, fails) <= |ids|
  {
    if ids != [] {
      CountsBounded(ids[..|ids| - 1], docs, catalog, fails);
    }
  }

  /** An order whose lines all have images is left alone even when a
      line lacks its size: the size repair alone is never written. */
  lemma SizeOnlyRepairDropped(docs: map<Id, seq<RawLine>>, catalog: map<Id, Product>, fails: set<Id>, id: Id, i: nat)
    requires id in docs && !NeedsUpdate(docs[id])
    requires i < |docs[id]| && docs[id][i].size.Absent?
    ensures Migrated(docs, catalog, fails)[id] == docs[id]
    ensures Repaired(docs[id], catalog) != docs[id]
  {
    assert Repaired(docs[id], catalog)[i].size == Nil;
  }

  /** The orders collection the migration rewrites. */
  class OrderCollection {
    var docs: map<Id, seq<RawLine>>

    constructor (docs: map<Id, seq<RawLine>>)
      ensures this.docs == docs
    {
      this.docs := docs;
    }

    /** One pass of the outer loop: the repair of order `id`, written
        back when some line missed its image. The write answers whether it
        modified the document, or fails when `id` is in `fails`. */
    method RepairOrder(id: Id, catalog: map<Id, Product>, fails: set<Id>) returns (modified: bool, failed: bool)
      requires id in docs
      modifies this
      ensures docs == old(docs)[id := Fixed(old(docs)[id], id, catalog, fails)]
      ensures modified <==> Written(old(docs), id, fails) && Repaired(old(docs)[id], catalog) != old(docs)[id]
      ensures failed <==> NeedsUpdate(old(docs)[id]) && id in fails
    {
      var items := docs[id];
      var updated, needsUpdate := RepairItems(items, catalog);
      modified, failed := false, false;
      if needsUpdate {
        if id in fails {
          failed := true;
        } else {
          docs := docs[id := updated];
          modified := updated != items;
        }
      }
    }

    /** The outer loop over the snapshot `ids` of every order, in the
        order of the snapshot, counting the modified and the failed
        writes. */
    method Migrate(ids: seq<Id>, catalog: map<Id, Product>, fails: set<Id>)
      returns (updatedCount: nat, errorCount: nat)
      requires forall id :: id in docs <==> id in ids
      requires forall a, b :: 0 <= a < b < |ids| ==> ids[a] != ids[b]
      modifies this
      ensures docs == Migrated(old(docs), catalog, fails)
      ensures updatedCount == UpdatedCount(ids, old(docs), catalog, fails)
      ensures errorCount == ErrorCount(ids, old(docs), fails)
    {
      ghost var snapshot := docs;
      updatedCount, errorCount := 0, 0;
      var i := 0;
      while i < |ids|
        invariant 0 <= i <= |ids|
        invariant docs == Partial(snapshot, ids[..i], catalog, fails)
        invariant updatedCount == UpdatedCount(ids[..i], snapshot, catalog, fails)
        invariant errorCount == ErrorCount(ids[..i], snapshot, fails)
      {
        var id := ids[i];
        PartialFacts(snapshot, ids[..i], catalog, fails);
        assert id !in ids[..i];
        assert docs[id] == snapshot[id];
        Step(snapshot, ids, i, catalog, fails);
        var modified, failed := RepairOrder(id, catalog, fails);
        if modified {
          updatedCount := updatedCount + 1;
        }
        if failed {
          errorCount := errorCount + 1;
        }
        i := i + 1;
      }
      assert ids[..i] == ids;
      PartialCoversAll(snapshot, ids, catalog, fails);
    }
  }
}
