/** The client-side page-view tracker (`components/microproses/Tracker.jsx`):
    one hit per path and query string per TTL, remembered in the tab's
    session storage. */
module PageTracker {
  import opened Common

  /** The default TTL: five minutes, in milliseconds. */
  const DefaultTtl: int := 5 * 60 * 1000

  /** The storage key of a location: `pv:` followed by pathname and search. */
  function KeyOf(pathname: string, search: string): (k: string)
    ensures |k| == 3 + |pathname| + |search|
    ensures k[..3] == "pv:"
  {
    "pv:" + (pathname + search)
  }

  /** Different locations use different keys. */
  lemma KeysDistinct(p1: string, s1: string, p2: string, s2: string)
    requires p1 + s1 != p2 + s2
    ensures KeyOf(p1, s1) != KeyOf(p2, s2)
  {
  }

  /** `number` is `Number(...)` as far as decimal strings go. */
  ghost predicate ReadsDecimals(number: string -> JsNumber)
  {
    forall s :: IsDecimal(s) ==> number(s) == Finite(DigitsValue(s) as real)
  }

  /** Whether a hit is a duplicate: something was stored, it reads as a
      number, and less than `ttl` has passed since then. */
  predicate Duplicate(prev: Option<string>, now: int, ttl: int, number: string -> JsNumber)
  {
    && prev.Some? && prev.value != []
    && number(prev.value).Finite?
    && (now as real) - number(prev.value).value < ttl as real
  }

  /** The tab's session storage. */
  class SessionStore {
    var items: map<string, string>

    constructor ()
      ensures items == map[]
    {
      items := map[];
    }

    function Get(key: string): Option<string>
      reads this
    {
      if key in items then Some(items[key]) else None
    }
  }

  /** The effect of the tracker: a duplicate hit changes nothing and sends
      nothing; any other hit stores `String(now)` under the key, before the
      hit is sent, and leaves every other key alone. */
  method Track(store: SessionStore, pathname: string, search: string, now: int, ttl: int,
               number: string -> JsNumber) returns (sent: bool)
    modifies store
    ensures var key := KeyOf(pathname, search);
      sent <==> !Duplicate(old(store.Get(key)), now, ttl, number)
    ensures var key := KeyOf(pathname, search);
      store.items == if sent then old(store.items)[key := IntToString(now)] else old(store.items)
  {
    var key := KeyOf(pathname, search);
    var prev := store.Get(key);
    if prev.Some? && prev.value != [] {
      var t := number(prev.value);
      if t.Finite? && (now as real) - t.value < ttl as real {
        return false;
      }
    }
    store.items := store.items[key := IntToString(now)];
    sent := true;
  }

  /** A hit at `t1`, less than `ttl` after a hit at `t0` that stored its
      time, is skipped; one `ttl` or more later is sent again. */
  lemma {:induction false} RepeatWithinTtlSkipped(t0: nat, t1: int, ttl: int, number: string -> JsNumber)
    requires ReadsDecimals(number)
    ensures Duplicate(Some(IntToString(t0)), t1, ttl, number) <==> t1 - t0 < ttl
  {
    NatToStringRoundTrip(t0);
    assert number(NatToString(t0)) == Finite(t0 as real);
  }

  /** A stored value that does not read as a number never suppresses a
      hit. */
  lemma UnreadableStampIgnored(prev: string, now: int, ttl: int, number: string -> JsNumber)
    requires number(prev).NaN?
    ensures !Duplicate(Some(prev), now, ttl, number)
  {
  }
}
