/** The analytics service: counts of cart additions and of ordered lines,
    the conversion rate between them, recording a cart addition, and
    stamping a user's last-online time. Times are whole ticks supplied by
    the caller, fresh record ids likewise. */
module Analytics {
  import opened Wrappers
  import opened Guids

  /** One row of the `CartAdditions` table. */
  datatype CartAddition = CartAddition(
    id: Guid,
    menuItemId: Guid,
    additionDate: int,
    userId: Option<string>,
    sessionId: Option<string>,
    ipAddress: Option<string>)

  /** One ordered line of an order; only its menu item is needed here. */
  datatype OrderMenuItem = OrderMenuItem(orderId: Guid, menuItemId: Guid, amount: int)

  /** A user entity tracked by the store; its last-online time is updated
      in place. */
  class User {
    const id: Guid
    var lastOnline: Option<int>

    constructor (id: Guid)
      ensures this.id == id && lastOnline == None
    {
      this.id := id;
      lastOnline := None;
    }
  }

  /** The tables the service reads and writes. */
  class AnalyticsContext {
    var cartAdditions: seq<CartAddition>
    var orderMenuItems: seq<OrderMenuItem>
    var users: map<Guid, User>

    /** Every user is stored under its own id, so two keys never share an
        entity. */
    predicate KeyedById()
      reads this, users.Values
    {
      forall u | u in users :: users[u].id == u
    }

    constructor ()
      ensures cartAdditions == [] && orderMenuItems == [] && users == map[]
      ensures KeyedById()
    {
      cartAdditions := [];
      orderMenuItems := [];
      users := map[];
    }
  }

  /** Purchases per hundred cart additions, and 0 when nothing was added
      to a cart. */
  function ConversionRate(purchases: nat, additions: nat): (rate: real)
    ensures rate >= 0.0
    ensures additions == 0 ==> rate == 0.0
    ensures additions > 0 ==> rate * additions as real == purchases as real * 100.0
  {
    if additions > 0 then purchases as real / additions as real * 100.0 else 0.0
  }

  /** With at least one cart addition, the rate is at most 100 exactly when
      there are no more purchases than cart additions. */
  lemma RateAtMostHundred(purchases: nat, additions: nat)
    requires additions > 0
    ensures ConversionRate(purchases, additions) <= 100.0 <==> purchases <= additions
  {
    var rate := ConversionRate(purchases, additions);
    var c := additions as real;
    assert rate * c == purchases as real * 100.0;
    if rate <= 100.0 {
      assert rate * c <= 100.0 * c;
    } else {
      assert rate * c > 100.0 * c;
    }
  }

  /** One more cart addition without a purchase never raises the rate, and
      lowers it when there was any purchase. */
  lemma AdditionLowersRate(purchases: nat, additions: nat)
    requires additions > 0
    ensures ConversionRate(purchases, additions + 1) <= ConversionRate(purchases, additions)
    ensures purchases > 0 ==> ConversionRate(purchases, additions + 1) < ConversionRate(purchases, additions)
  {
    var before := ConversionRate(purchases, additions);
    var after := ConversionRate(purchases, additions + 1);
    var c := additions as real;
    assert before * c == purchases as real * 100.0;
    assert after * (c + 1.0) == purchases as real * 100.0;
    assert after * c <= before * c by {
      assert after * c + after == before * c;
    }
    if purchases > 0 {
      assert after > 0.0;
      assert after * c < before * c by {
        assert after * c + after == before * c;
      }
    }
  }

  class AnalyticsService {
    const context: AnalyticsContext

    constructor (context: AnalyticsContext)
      ensures this.context == context
    {
      this.context := context;
    }

    /** The number of recorded cart additions. */
    function GetTotalCartAdditions(): nat
      reads this, context
    {
      |context.cartAdditions|
    }

    /** The number of ordered lines (not of orders). */
    function GetTotalPurchases(): nat
      reads this, context
    {
      |context.orderMenuItems|
    }

    /** The conversion rate over the current tables. */
    function GetConversionRate(): (rate: real)
      reads this, context
      ensures rate >= 0.0
      ensures context.cartAdditions == [] ==> rate == 0.0
      ensures context.cartAdditions != [] ==>
        rate * |context.cartAdditions| as real == |context.orderMenuItems| as real * 100.0
    {
      ConversionRate(GetTotalPurchases(), GetTotalCartAdditions())
    }

    /** `TrackCartAdditionAsync`: appends exactly one record carrying the
        given menu item, user, session and address; nothing else changes. */
    method TrackCartAddition(menuItemId: Guid, userId: Option<string>, sessionId: Option<string>,
                             ipAddress: Option<string>, newId: Guid, now: int)
      modifies context
      ensures context.cartAdditions
        == old(context.cartAdditions) + [CartAddition(newId, menuItemId, now, userId, sessionId, ipAddress)]
      ensures GetTotalCartAdditions() == old(GetTotalCartAdditions()) + 1
      ensures context.orderMenuItems == old(context.orderMenuItems)
      ensures context.users == old(context.users)
    {
      var cartAddition := CartAddition(newId, menuItemId, now, userId, sessionId, ipAddress);
      context.cartAdditions := context.cartAdditions + [cartAddition];
    }

    /** `UpdateUserLastOnlineAsync`: a known user's last-online time becomes
        `now`; an unknown id changes nothing, and no other user changes. */
    method UpdateUserLastOnline(userId: Guid, now: int)
      requires context.KeyedById()
      modifies if userId in context.users then {context.users[userId]} else {}
      ensures userId in context.users ==> context.users[userId].lastOnline == Some(now)
      ensures forall u | u in context.users && u != userId ::
        context.users[u].lastOnline == old(context.users[u].lastOnline)
      ensures context.KeyedById()
    {
      if userId in context.users {
        var user := context.users[userId];
        user.lastOnline := Some(now);
      }
    }
  }
}
