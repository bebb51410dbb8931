/** What the cache is keyed by and how long its answers stay fresh. */
module CacheKeys {
  import opened Bytes
  import opened Wrappers

  datatype Namespace =
    | Identity
    | Handle
    | Publication
    | DocumentList
    | Document
    | BlueskyThread
    | Image
    | PlaceSearch

  const MINUTE := 60
  const HOUR := 60 * MINUTE
  const DAY := 24 * HOUR

  /** Seconds a found value stays fresh. */
  function Ttl(ns: Namespace): nat {
    match ns
    case Identity | PlaceSearch => DAY
    case Handle | Document => HOUR
    case Publication => 15 * MINUTE
    case DocumentList | BlueskyThread => 5 * MINUTE
    case Image => 6 * HOUR
  }

  /** Seconds a "not found" answer is remembered. */
  function NegativeTtl(ns: Namespace): nat {
    match ns
    case Identity => 10 * MINUTE
    case Handle | Publication | DocumentList | Document | BlueskyThread => 5 * MINUTE
    case Image | PlaceSearch => 60 * MINUTE
  }

  function Label(ns: Namespace): string {
    match ns
    case Identity => "identity"
    case Handle => "handle"
    case Publication => "publication"
    case DocumentList => "document_list"
    case Document => "document"
    case BlueskyThread => "bluesky_thread"
    case Image => "image"
    case PlaceSearch => "place_search"
  }

  datatype Key = Key(ns: Namespace, name: string)

  /** The name of a key's lock in the in-flight map. */
  function LockName(k: Key): string {
    Label(k.ns) + ['\0'] + k.name
  }

  /** A stored row; a `None` value is a remembered "not found". */
  datatype Row = Row(value: Option<Bytes>, fetchedAt: int, expiresAt: int)

  function MakeRow(k: Key, value: Option<Bytes>, now: int): Row {
    Row(value, now, now + if value.Some? then Ttl(k.ns) else NegativeTtl(k.ns))
  }

  /** `None` is a miss, `Some(None)` a negative hit. */
  function Hit(rows: map<Key, Row>, k: Key, now: int): Option<Option<Bytes>> {
    if k in rows && rows[k].expiresAt > now then Some(rows[k].value) else None
  }

  /** Two keys share a lock only when they are the same key. */
  lemma LockNameInjective(a: Key, b: Key)
    requires LockName(a) == LockName(b)
    ensures a == b
  {
    SplitAtNul(Label(a.ns), a.name, Label(b.ns), b.name);
    LabelInjective(a.ns, b.ns);
  }

  lemma {:induction false} SplitAtNul(x: string, r: string, y: string, s: string)
    requires '\0' !in x && '\0' !in y
    requires x + ['\0'] + r == y + ['\0'] + s
    ensures x == y && r == s
  {
    var t, u := x + ['\0'] + r, y + ['\0'] + s;
    assert t[0] == u[0];
    if x == [] || y == [] {
      assert x == [] && y == [];
      assert r == t[1..] && s == u[1..];
    } else {
      assert t[1..] == x[1..] + ['\0'] + r && u[1..] == y[1..] + ['\0'] + s;
      SplitAtNul(x[1..], r, y[1..], s);
    }
  }

  lemma LabelInjective(a: Namespace, b: Namespace)
    requires Label(a) == Label(b)
    ensures a == b
  {
    assert |Label(a)| == |Label(b)| && Label(a)[0] == Label(b)[0];
    assert |Label(a)| > 1 ==> Label(a)[1] == Label(b)[1];
  }
}
