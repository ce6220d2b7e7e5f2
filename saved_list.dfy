/**
 * hollowscan_app/context/SavedContext.js: the user's saved products. A
 * product is saved or unsaved by one toggle; the list is matched by id and
 * copied to device storage after each change.
 */
module SavedList {
  import opened Wrappers
  import opened Seqs

  /** A saved deal: matched by `id` alone; the rest is carried along. */
  datatype Product = Product(id: string, title: string)

  /** `isSaved`: some saved product has this id. */
  predicate IsSaved(saved: seq<Product>, id: string) {
    exists k :: 0 <= k < |saved| && saved[k].id == id
  }

  /** `saved.filter(p => p.id !== id)`: every product with another id, in order. */
  function WithoutId(saved: seq<Product>, id: string): (r: seq<Product>)
    ensures forall p :: p in r <==> p in saved && p.id != id
    ensures IsSubsequence(r, saved)
  {
    if saved == [] then []
    else
      var init := saved[..|saved| - 1];
      var last := saved[|saved| - 1];
      var r := WithoutId(init, id);
      SubsequenceSnoc(r, init, last, last.id != id);
      assert init + [last] == saved;
      assert forall p :: p in saved <==> p in init || p == last;
      assert forall p :: p in r + [last] <==> p in r || p == last;
      if last.id != id then r + [last] else r
  }

  /** The list after `toggleSave(product)`: every entry with its id removed if one was saved, else the product appended. */
  function Toggled(saved: seq<Product>, product: Product): seq<Product> {
    if IsSaved(saved, product.id) then WithoutId(saved, product.id) else saved + [product]
  }

  /** Toggling flips whether the product's id is saved, and leaves every other id as it was. */
  lemma ToggleFlips(saved: seq<Product>, product: Product, other: string)
    ensures IsSaved(Toggled(saved, product), product.id) <==> !IsSaved(saved, product.id)
    ensures other != product.id ==> (IsSaved(Toggled(saved, product), other) <==> IsSaved(saved, other))
  {
    var r := Toggled(saved, product);
    if IsSaved(saved, product.id) {
      if IsSaved(r, other) {
        var k :| 0 <= k < |r| && r[k].id == other;
        assert r[k] in r;
      }
      if other != product.id && IsSaved(saved, other) {
        var k :| 0 <= k < |saved| && saved[k].id == other;
        assert saved[k] in r;
      }
    } else {
      assert r[|saved|] == product;
      if IsSaved(r, other) && other != product.id {
        var k :| 0 <= k < |r| && r[k].id == other;
        assert saved[k] == r[k];
      }
      if IsSaved(saved, other) {
        var k :| 0 <= k < |saved| && saved[k].id == other;
        assert r[k] == saved[k];
      }
    }
  }

  /** Removing an id that no entry has changes nothing. */
  lemma {:induction false} WithoutAbsentId(saved: seq<Product>, id: string)
    requires !IsSaved(saved, id)
    ensures WithoutId(saved, id) == saved
  {
    if saved != [] {
      var init := saved[..|saved| - 1];
      WithoutAbsentId(init, id);
      assert saved[|saved| - 1].id != id;
      assert init + [saved[|saved| - 1]] == saved;
    }
  }

  /** Toggling a product that is not saved twice gives back the original list. */
  lemma ToggleTwice(saved: seq<Product>, product: Product)
    requires !IsSaved(saved, product.id)
    ensures Toggled(Toggled(saved, product), product) == saved
  {
    var once := saved + [product];
    assert once[|saved|].id == product.id;
    assert once[..|once| - 1] == saved;
    WithoutAbsentId(saved, product.id);
  }

  class SavedProvider {
    /** The screen state `savedProducts`. */
    var savedProducts: seq<Product>
    /** The `savedProducts` entry of device storage, when one was written. */
    var stored: Option<seq<Product>>

    /** The provider as mounted, after loading a readable stored list (or none). */
    constructor (loaded: Option<seq<Product>>)
      ensures savedProducts == loaded.GetOr([]) && stored == loaded
    {
      savedProducts := loaded.GetOr([]);
      stored := loaded;
    }

    /** `toggleSave`: the toggled list becomes the state and is written to storage. */
    method ToggleSave(product: Product)
      modifies this
      ensures savedProducts == Toggled(old(savedProducts), product)
      ensures stored == Some(savedProducts)
    {
      var alreadySaved := IsSaved(savedProducts, product.id);
      var newSaved;
      if alreadySaved {
        newSaved := WithoutId(savedProducts, product.id);
      } else {
        newSaved := savedProducts + [product];
      }
      savedProducts := newSaved;
      stored := Some(newSaved);
    }

    /** `isSaved`, on the current state. */
    predicate IsSavedNow(productId: string)
      reads this
    {
      IsSaved(savedProducts, productId)
    }
  }
}
