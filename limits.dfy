/** The per-user, per-day usage counters of the proxy: the `LimitsDO` Durable Object, whose storage
    maps `"<day>:<kind>"` to a `{ used }` record, and `getCounter`, which addresses the object named
    `"u:<sub>"` with a `/get` or `/inc` request. */
module Limits {
  import opened JsText

  /** One object's storage: `used` per key; a key absent from the map reads as `{ used: 0 }`. */
  type Storage = map<string, nat>

  /** The request URL `https://do<path>?day=..&kind=..&limit=..`, already decoded. */
  datatype DoRequest = DoRequest(path: string, day: string, kind: string, limit: int)

  /** The response: 404 "Not found", or the JSON `{ used, limit, left }`. */
  datatype DoReply = NotFound | Counts(used: nat, limit: int, left: int)

  function Key(day: string, kind: string): string
  {
    day + ":" + kind
  }

  function Used(storage: Storage, key: string): nat
  {
    if key in storage then storage[key] else 0
  }

  /** `LimitsDO.fetch` as a function of the storage before the request: the storage after it and the reply. */
  function DoFetch(storage: Storage, req: DoRequest): (Storage, DoReply)
  {
    if req.path != "/get" && req.path != "/inc" then (storage, NotFound)
    else
      var key := Key(req.day, req.kind);
      var used := if req.path == "/inc" then Used(storage, key) + 1 else Used(storage, key);
      var after := if req.path == "/inc" then storage[key := used] else storage;
      (after, Counts(used, req.limit, Max(0, req.limit - used)))
  }

  /** One Durable Object instance; its storage is updated in place by `/inc`. */
  class LimitsObject {
    var storage: Storage

    constructor ()
      ensures storage == map[]
    {
      storage := map[];
    }

    method Fetch(req: DoRequest) returns (reply: DoReply)
      modifies this
      ensures (storage, reply) == DoFetch(old(storage), req)
    {
      if req.path != "/get" && req.path != "/inc" {
        return NotFound;
      }
      var key := Key(req.day, req.kind);
      var used := if key in storage then storage[key] else 0;
      if req.path == "/inc" {
        used := used + 1;
        storage := storage[key := used];
      }
      var left := req.limit - used;
      if left < 0 {
        left := 0;
      }
      reply := Counts(used, req.limit, left);
    }
  }

  /** `/inc` raises the count of its key by exactly one and leaves every other key as it was. */
  lemma IncAddsOne(storage: Storage, day: string, kind: string, limit: int)
    ensures var (after, reply) := DoFetch(storage, DoRequest("/inc", day, kind, limit));
            Used(after, Key(day, kind)) == Used(storage, Key(day, kind)) + 1
            && reply == Counts(Used(storage, Key(day, kind)) + 1, limit, Max(0, limit - Used(storage, Key(day, kind)) - 1))
            && (forall k :: k != Key(day, kind) ==> (k in after <==> k in storage) && Used(after, k) == Used(storage, k))
  {
  }

  /** `/get` never writes, and reports the stored count (0 for a fresh key). */
  lemma GetChangesNothing(storage: Storage, day: string, kind: string, limit: int)
    ensures var (after, reply) := DoFetch(storage, DoRequest("/get", day, kind, limit));
            after == storage && reply.Counts? && reply.used == Used(storage, Key(day, kind))
  {
  }

  /** Every counts reply has `left = max(0, limit - used)`, which is never negative and never more than the limit. */
  lemma LeftIsRemainder(storage: Storage, req: DoRequest)
    ensures var reply := DoFetch(storage, req).1;
            reply.Counts? ==> reply.left == Max(0, reply.limit - reply.used) && reply.left >= 0
                              && (reply.limit >= 0 ==> reply.left <= reply.limit)
  {
  }

  /** Any path other than `/get` and `/inc` is answered 404 and leaves the storage alone. */
  lemma OtherPathNotFound(storage: Storage, req: DoRequest)
    ensures DoFetch(storage, req).1.NotFound? <==> req.path != "/get" && req.path != "/inc"
    ensures DoFetch(storage, req).1.NotFound? ==> DoFetch(storage, req).0 == storage
  {
  }

  /** The storage after `n` `/inc` requests for the same key. */
  function IncTimes(storage: Storage, day: string, kind: string, limit: int, n: nat): Storage
  {
    if n == 0 then storage else DoFetch(IncTimes(storage, day, kind, limit, n - 1), DoRequest("/inc", day, kind, limit)).0
  }

  /** After `n` increments the count is `n` more than before, and the `n`-th reply reports exactly that. */
  lemma {:induction false} IncTimesCount(storage: Storage, day: string, kind: string, limit: int, n: nat)
    ensures Used(IncTimes(storage, day, kind, limit, n), Key(day, kind)) == Used(storage, Key(day, kind)) + n
    ensures n > 0 ==> DoFetch(IncTimes(storage, day, kind, limit, n - 1), DoRequest("/inc", day, kind, limit)).1.used
                      == Used(storage, Key(day, kind)) + n
  {
    if n > 0 {
      IncTimesCount(storage, day, kind, limit, n - 1);
      IncAddsOne(IncTimes(storage, day, kind, limit, n - 1), day, kind, limit);
    }
  }

  /** Starting from a fresh key and a limit `L`, the `n`-th increment is over the limit exactly when
      `n > L`: increments 1..L are allowed and increment L+1 is the first refused. */
  lemma OverLimitExactlyAfter(storage: Storage, day: string, kind: string, limit: int, n: nat)
    requires Key(day, kind) !in storage
    requires n > 0
    ensures var reply := DoFetch(IncTimes(storage, day, kind, limit, n - 1), DoRequest("/inc", day, kind, limit)).1;
            reply.used == n && (reply.used > reply.limit <==> n > limit)
  {
    IncTimesCount(storage, day, kind, limit, n);
  }

  // ---------------------------------------------------------------- the namespace

  /** All objects of the `LIMITS` namespace by name; an object never written has empty storage. */
  type Counters = map<string, Storage>

  function ObjectName(sub: string): string
  {
    "u:" + sub
  }

  function StorageOf(counters: Counters, name: string): Storage
  {
    if name in counters then counters[name] else map[]
  }

  /** The count `getCounter` would report for `sub`, `day` and `kind`. */
  function Count(counters: Counters, sub: string, day: string, kind: string): nat
  {
    Used(StorageOf(counters, ObjectName(sub)), Key(day, kind))
  }

  /** `getCounter(env, sub, dayKey, kind, limit, inc)`: the counters afterwards and the parsed reply. */
  function GetCounter(counters: Counters, sub: string, day: string, kind: string, limit: int, inc: bool)
    : (res: (Counters, DoReply))
    ensures res.1.Counts? && res.1.limit == limit
    ensures !inc ==> res.0 == counters && res.1.used == Count(counters, sub, day, kind)
    ensures inc ==> res.1.used == Count(counters, sub, day, kind) + 1 && Count(res.0, sub, day, kind) == res.1.used
  {
    var name := ObjectName(sub);
    var (after, reply) := DoFetch(StorageOf(counters, name), DoRequest(if inc then "/inc" else "/get", day, kind, limit));
    (if inc then counters[name := after] else counters, reply)
  }

  /** An increment touches only its own counter: every other user, day and kind keeps its count. */
  lemma IncrementIsolated(counters: Counters, sub: string, day: string, kind: string, limit: int,
                          sub2: string, day2: string, kind2: string)
    requires ObjectName(sub2) != ObjectName(sub) || Key(day2, kind2) != Key(day, kind)
    ensures Count(GetCounter(counters, sub, day, kind, limit, true).0, sub2, day2, kind2) == Count(counters, sub2, day2, kind2)
  {
  }

  /** The object name determines the user. */
  lemma ObjectNameInjective(a: string, b: string)
    ensures ObjectName(a) == ObjectName(b) <==> a == b
  {
    if ObjectName(a) == ObjectName(b) {
      assert a == ObjectName(a)[2..];
    }
  }
}
