/** The cart service: adding a menu item to a user's cart after checking the
    request, and the view of a cart that skips deleted menu items. */
module Carts {
  import opened Wrappers
  import opened Errors
  import opened Guids
  import opened MenuItems

  datatype CartMenuItem = CartMenuItem(menuItemId: Guid, amount: int)

  datatype CartMenuItemViewModel = CartMenuItemViewModel(id: Guid, name: string, amount: int)

  /** The carts behind `CartsRepository`, one list of entries per user. */
  class CartsRepository {
    var carts: map<Guid, seq<CartMenuItem>>

    constructor ()
      ensures carts == map[]
    {
      carts := map[];
    }

    /** A user without a stored cart has an empty one. */
    function GetUsersCart(userId: Guid): seq<CartMenuItem>
      reads this
    {
      if userId in carts then carts[userId] else []
    }

    method AddItemToCart(userId: Guid, item: CartMenuItem)
      modifies this
      ensures carts == old(carts)[userId := old(GetUsersCart(userId)) + [item]]
    {
      carts := carts[userId := GetUsersCart(userId) + [item]];
    }
  }

  /** The amount of the first entry of `cart` for the menu item `id`. */
  function FirstAmount(cart: seq<CartMenuItem>, id: Guid): (a: int)
    requires exists i | 0 <= i < |cart| :: cart[i].menuItemId == id
    ensures exists i | 0 <= i < |cart| ::
      && cart[i].menuItemId == id && cart[i].amount == a
      && forall j | 0 <= j < i :: cart[j].menuItemId != id
  {
    if cart[0].menuItemId == id then cart[0].amount
    else
      assert exists i | 0 <= i < |cart[1..]| :: cart[1..][i].menuItemId == id by {
        var i :| 0 <= i < |cart| && cart[i].menuItemId == id;
        assert cart[1..][i - 1].menuItemId == id;
      }
      var a := FirstAmount(cart[1..], id);
      ghost var i :| 0 <= i < |cart[1..]| && cart[1..][i].menuItemId == id && cart[1..][i].amount == a
        && forall j | 0 <= j < i :: cart[1..][j].menuItemId != id;
      assert cart[i + 1] == cart[1..][i];
      assert forall j | 1 <= j < i + 1 :: cart[j] == cart[1..][j - 1];
      a
  }

  /** The view of the first `n` entries of `cart`: an entry whose menu item
      no longer exists is skipped, the others show the menu item's id and
      name and the amount of the first entry for that menu item. */
  function CartView(cart: seq<CartMenuItem>, n: nat, menu: seq<MenuItem>): (vm: seq<CartMenuItemViewModel>)
    requires n <= |cart|
    ensures |vm| <= n
    decreases n
  {
    if n == 0 then []
    else
      var entry := cart[n - 1];
      var item := FindById(menu, entry.menuItemId);
      if item.None? then CartView(cart, n - 1, menu)
      else
        assert cart[n - 1].menuItemId == entry.menuItemId;
        CartView(cart, n - 1, menu)
          + [CartMenuItemViewModel(item.value.id, item.value.name, FirstAmount(cart, item.value.id))]
  }

  class CartsService {
    const menuItems: MenuItemRepository
    const carts: CartsRepository

    constructor (menuItems: MenuItemRepository, carts: CartsRepository)
      ensures this.menuItems == menuItems && this.carts == carts
    {
      this.menuItems := menuItems;
      this.carts := carts;
    }

    /** `AddItemToCart`: the id is checked before the amount and both before
        the lookup; only a request that passes all three changes the cart,
        by appending exactly one entry to that user's cart. */
    method AddItemToCart(userId: Guid, itemId: Option<string>, amount: int) returns (r: Option<Error>)
      modifies carts
      ensures itemId.None? || itemId.value == "" || TryParse(itemId).None? ==>
        r == Some(ArgumentException(InvalidIdFormat))
      ensures TryParse(itemId).Some? && amount <= 0 ==> r == Some(ArgumentException(AmountNotPositive))
      ensures TryParse(itemId).Some? && amount > 0 && !HasId(menuItems.items, TryParse(itemId).value) ==>
        r == Some(KeyNotFoundException)
      ensures TryParse(itemId).Some? && amount > 0 && HasId(menuItems.items, TryParse(itemId).value) ==>
        r.None?
      ensures r.Some? ==> carts.carts == old(carts.carts)
      ensures r.None? ==>
        && TryParse(itemId).Some? && amount > 0
        && carts.carts == old(carts.carts)[userId := old(carts.GetUsersCart(userId))
                                                       + [CartMenuItem(TryParse(itemId).value, amount)]]
      ensures forall u | u != userId :: carts.GetUsersCart(u) == old(carts.GetUsersCart(u))
    {
      if itemId.None? || itemId.value == "" || TryParse(itemId).None? {
        return Some(ArgumentException(InvalidIdFormat));
      }
      var itemGuid := TryParse(itemId).value;
      if amount <= 0 {
        return Some(ArgumentException(AmountNotPositive));
      }
      var item := menuItems.GetItemById(itemGuid);
      if item.None? {
        return Some(KeyNotFoundException);
      }
      var cartItem := CartMenuItem(item.value.id, amount);
      carts.AddItemToCart(userId, cartItem);
      return None;
    }

    /** `GetUsersCart`: the view of the user's whole cart. Reading the cart a
        second time for an order does not change what is read. */
    method GetUsersCart(userId: Guid, isForOrder: bool) returns (vm: seq<CartMenuItemViewModel>)
      ensures vm == CartView(carts.GetUsersCart(userId), |carts.GetUsersCart(userId)|, menuItems.items)
    {
      var cart := carts.GetUsersCart(userId);
      if isForOrder {
        cart := carts.GetUsersCart(userId);
      }
      vm := [];
      for i := 0 to |cart|
        invariant vm == CartView(cart, i, menuItems.items)
      {
        var cartMenuItem := cart[i];
        var item := menuItems.GetItemById(cartMenuItem.menuItemId);
        if item.None? {
          continue;
        }
        var itemAmount := FirstAmount(cart, item.value.id);
        vm := vm + [CartMenuItemViewModel(item.value.id, item.value.name, itemAmount)];
      }
    }
  }

  predicate InCart(cart: seq<CartMenuItem>, n: nat, id: Guid)
    requires n <= |cart|
  {
    exists i | 0 <= i < n :: cart[i].menuItemId == id
  }

  /** The positions among the first `n` entries whose menu item exists, in
      increasing order. */
  function LiveIndices(cart: seq<CartMenuItem>, n: nat, menu: seq<MenuItem>): (idx: seq<nat>)
    requires n <= |cart|
    ensures forall j | 0 <= j < |idx| :: idx[j] < n && HasId(menu, cart[idx[j]].menuItemId)
    ensures forall j, k | 0 <= j < k < |idx| :: idx[j] < idx[k]
    decreases n
  {
    if n == 0 then []
    else if HasId(menu, cart[n - 1].menuItemId) then LiveIndices(cart, n - 1, menu) + [n - 1]
    else LiveIndices(cart, n - 1, menu)
  }

  /** Every live position among the first `n` is listed. */
  lemma {:induction false} LiveIndicesComplete(cart: seq<CartMenuItem>, n: nat, menu: seq<MenuItem>, i: nat)
    requires i < n <= |cart| && HasId(menu, cart[i].menuItemId)
    ensures i in LiveIndices(cart, n, menu)
    decreases n
  {
    if i < n - 1 {
      LiveIndicesComplete(cart, n - 1, menu, i);
    }
  }

  /** The view has one line per live entry, in cart order: its ids are the
      ids of the live entries, and nothing else. */
  lemma {:induction false} CartViewFollowsLive(cart: seq<CartMenuItem>, n: nat, menu: seq<MenuItem>)
    requires n <= |cart|
    ensures |CartView(cart, n, menu)| == |LiveIndices(cart, n, menu)|
    ensures forall j | 0 <= j < |CartView(cart, n, menu)| ::
      CartView(cart, n, menu)[j].id == cart[LiveIndices(cart, n, menu)[j]].menuItemId
    decreases n
  {
    if n > 0 {
      CartViewFollowsLive(cart, n - 1, menu);
      var prev, pidx := CartView(cart, n - 1, menu), LiveIndices(cart, n - 1, menu);
      var found := FindById(menu, cart[n - 1].menuItemId);
      if found.Some? {
        var line := CartMenuItemViewModel(found.value.id, found.value.name, FirstAmount(cart, found.value.id));
        assert CartView(cart, n, menu) == prev + [line];
        assert LiveIndices(cart, n, menu) == pidx + [n - 1];
        forall j | 0 <= j < |prev| + 1
          ensures CartView(cart, n, menu)[j].id == cart[LiveIndices(cart, n, menu)[j]].menuItemId
        {
          assert (prev + [line])[j].id == cart[(pidx + [n - 1])[j]].menuItemId;
        }
      } else {
        assert CartView(cart, n, menu) == prev;
        assert LiveIndices(cart, n, menu) == pidx;
        forall j | 0 <= j < |prev| ensures CartView(cart, n, menu)[j].id == cart[LiveIndices(cart, n, menu)[j]].menuItemId {
          assert prev[j].id == cart[pidx[j]].menuItemId;
        }
      }
    }
  }

  /** Every entry of the view names an existing menu item under its own
      name, comes from one of the first `n` cart entries, and shows the
      amount of the first cart entry for it. */
  lemma {:induction false} CartViewEntries(cart: seq<CartMenuItem>, n: nat, menu: seq<MenuItem>)
    requires n <= |cart|
    ensures forall j | 0 <= j < |CartView(cart, n, menu)| ::
      var e := CartView(cart, n, menu)[j];
      && FindById(menu, e.id).Some? && FindById(menu, e.id).value.name == e.name
      && InCart(cart, n, e.id)
      && e.amount == FirstAmount(cart, e.id)
    decreases n
  {
    if n > 0 {
      CartViewEntries(cart, n - 1, menu);
      var vm := CartView(cart, n, menu);
      var prev := CartView(cart, n - 1, menu);
      forall j | 0 <= j < |vm|
        ensures FindById(menu, vm[j].id).Some? && FindById(menu, vm[j].id).value.name == vm[j].name
        ensures InCart(cart, n, vm[j].id) && vm[j].amount == FirstAmount(cart, vm[j].id)
      {
        if j < |prev| {
          assert vm[j] == prev[j];
          var i :| 0 <= i < n - 1 && cart[i].menuItemId == vm[j].id;
        } else {
          assert cart[n - 1].menuItemId == vm[j].id;
        }
      }
    }
  }

  /** When every entry's menu item exists, the view has one entry per cart
      entry, in cart order. */
  lemma {:induction false} CartViewComplete(cart: seq<CartMenuItem>, n: nat, menu: seq<MenuItem>)
    requires n <= |cart|
    requires forall i | 0 <= i < n :: HasId(menu, cart[i].menuItemId)
    ensures |CartView(cart, n, menu)| == n
    ensures forall j | 0 <= j < n :: CartView(cart, n, menu)[j].id == cart[j].menuItemId
    decreases n
  {
    if n > 0 {
      CartViewComplete(cart, n - 1, menu);
      var prev := CartView(cart, n - 1, menu);
      var vm := CartView(cart, n, menu);
      assert HasId(menu, cart[n - 1].menuItemId);
      var found := FindById(menu, cart[n - 1].menuItemId);
      assert vm == prev + [CartMenuItemViewModel(found.value.id, found.value.name, FirstAmount(cart, found.value.id))];
      forall j | 0 <= j < n ensures vm[j].id == cart[j].menuItemId {
        if j < n - 1 {
          assert vm[j] == prev[j];
        }
      }
    }
  }

  /** A dangling entry among the first `n` makes the view shorter than `n`. */
  lemma {:induction false} CartViewSkipsDangling(cart: seq<CartMenuItem>, n: nat, menu: seq<MenuItem>, k: nat)
    requires k < n <= |cart| && !HasId(menu, cart[k].menuItemId)
    ensures |CartView(cart, n, menu)| < n
    decreases n
  {
    if k < n - 1 {
      CartViewSkipsDangling(cart, n - 1, menu, k);
    }
  }

  /** With at most one entry per menu item and none dangling, every entry
      shows its own amount. */
  lemma CartViewOwnAmounts(cart: seq<CartMenuItem>, menu: seq<MenuItem>)
    requires forall i, j | 0 <= i < j < |cart| :: cart[i].menuItemId != cart[j].menuItemId
    requires forall i | 0 <= i < |cart| :: HasId(menu, cart[i].menuItemId)
    ensures |CartView(cart, |cart|, menu)| == |cart|
    ensures forall j | 0 <= j < |cart| :: CartView(cart, |cart|, menu)[j].amount == cart[j].amount
  {
    CartViewComplete(cart, |cart|, menu);
    CartViewEntries(cart, |cart|, menu);
    var vm := CartView(cart, |cart|, menu);
    forall j | 0 <= j < |cart| ensures vm[j].amount == cart[j].amount {
      assert vm[j].id == cart[j].menuItemId;
      OwnFirstAmount(cart, j);
    }
  }

  lemma OwnFirstAmount(cart: seq<CartMenuItem>, k: nat)
    requires forall i, j | 0 <= i < j < |cart| :: cart[i].menuItemId != cart[j].menuItemId
    requires k < |cart|
    ensures FirstAmount(cart, cart[k].menuItemId) == cart[k].amount
  {
    var id := cart[k].menuItemId;
    var a := FirstAmount(cart, id);
    var i :| 0 <= i < |cart| && cart[i].menuItemId == id && cart[i].amount == a
      && forall j | 0 <= j < i :: cart[j].menuItemId != id;
    assert i == k;
  }

  /** Entries appended to a cart do not change the view of the entries
      before them. */
  lemma {:induction false} CartViewPrefix(cart: seq<CartMenuItem>, more: seq<CartMenuItem>, n: nat, menu: seq<MenuItem>)
    requires n <= |cart|
    ensures CartView(cart + more, n, menu) == CartView(cart, n, menu)
    decreases n
  {
    if n > 0 {
      CartViewPrefix(cart, more, n - 1, menu);
      var e := cart[n - 1];
      assert (cart + more)[n - 1] == e;
      if FindById(menu, e.menuItemId).Some? {
        FirstAmountPrefix(cart, more, e.menuItemId, n - 1);
      }
    }
  }

  lemma FirstAmountPrefix(cart: seq<CartMenuItem>, more: seq<CartMenuItem>, id: Guid, k: nat)
    requires k < |cart| && cart[k].menuItemId == id
    ensures (cart + more)[k] == cart[k] && FirstAmount(cart + more, id) == FirstAmount(cart, id)
  {
    var c := cart + more;
    assert c[k] == cart[k];
    var a := FirstAmount(c, id);
    var i :| 0 <= i < |c| && c[i].menuItemId == id && c[i].amount == a
      && forall j | 0 <= j < i :: c[j].menuItemId != id;
    var b := FirstAmount(cart, id);
    var i' :| 0 <= i' < |cart| && cart[i'].menuItemId == id && cart[i'].amount == b
      && forall j | 0 <= j < i' :: cart[j].menuItemId != id;
    assert c[i'] == cart[i'];
    assert i <= i';
    assert c[i] == cart[i];
  }

  /** A successful `AddItemToCart` of a menu item not yet in the cart adds
      exactly one line, with the added amount, at the end of the view. */
  lemma AddedItemIsShownLast(cart: seq<CartMenuItem>, menu: seq<MenuItem>, item: MenuItem, amount: int)
    requires item in menu && !InCart(cart, |cart|, item.id)
    requires DistinctIds(menu)
    ensures var e := CartMenuItem(item.id, amount);
      CartView(cart + [e], |cart| + 1, menu)
        == CartView(cart, |cart|, menu) + [CartMenuItemViewModel(item.id, item.name, amount)]
  {
    var e := CartMenuItem(item.id, amount);
    CartViewPrefix(cart, [e], |cart|, menu);
    FindMember(menu, item);
    FirstAmountOfNew(cart, e);
    assert (cart + [e])[|cart|] == e;
  }

  lemma FindMember(menu: seq<MenuItem>, item: MenuItem)
    requires item in menu && DistinctIds(menu)
    ensures FindById(menu, item.id) == Some(item)
  {
    var found := FindById(menu, item.id);
    var i :| 0 <= i < |menu| && menu[i] == item;
    var j :| 0 <= j < |menu| && menu[j] == found.value;
    assert i == j;
  }

  lemma FirstAmountOfNew(cart: seq<CartMenuItem>, e: CartMenuItem)
    requires !InCart(cart, |cart|, e.menuItemId)
    ensures (cart + [e])[|cart|] == e && FirstAmount(cart + [e], e.menuItemId) == e.amount
  {
    var c := cart + [e];
    assert c[|cart|] == e;
    assert forall m | 0 <= m < |cart| :: c[m] == cart[m] && c[m].menuItemId != e.menuItemId;
    var a := FirstAmount(c, e.menuItemId);
    var k :| 0 <= k < |c| && c[k].menuItemId == e.menuItemId && c[k].amount == a
      && forall m | 0 <= m < k :: c[m].menuItemId != e.menuItemId;
    assert k == |cart|;
  }

  /** Two lines of the view for the same menu item both show the amount
      of the cart entry behind the first of them, as `Where(...).First()`
      picks the earliest entry for the item. */
  lemma RepeatedEntryShowsFirstAmount(cart: seq<CartMenuItem>, n: nat, menu: seq<MenuItem>, j: nat, k: nat)
    requires n <= |cart| && j < k < |CartView(cart, n, menu)|
    requires CartView(cart, n, menu)[j].id == CartView(cart, n, menu)[k].id
    requires forall m | 0 <= m < j :: CartView(cart, n, menu)[m].id != CartView(cart, n, menu)[j].id
    ensures |LiveIndices(cart, n, menu)| == |CartView(cart, n, menu)|
    ensures CartView(cart, n, menu)[k].amount == CartView(cart, n, menu)[j].amount
      == cart[LiveIndices(cart, n, menu)[j]].amount
  {
    var vm, idx := CartView(cart, n, menu), LiveIndices(cart, n, menu);
    var id := vm[j].id;
    CartViewEntries(cart, n, menu);
    CartViewFollowsLive(cart, n, menu);
    var a := FirstAmount(cart, id);
    var i :| 0 <= i < |cart| && cart[i].menuItemId == id && cart[i].amount == a
      && forall m | 0 <= m < i :: cart[m].menuItemId != id;
    var i' :| 0 <= i' < n && cart[i'].menuItemId == id;
    assert i < n;
    LiveIndicesComplete(cart, n, menu, i);
    var m :| 0 <= m < |idx| && idx[m] == i;
    assert vm[m].id == id;
    assert j <= m;
    assert idx[j] <= i;
    assert cart[idx[j]].menuItemId == id;
  }
}
