/** The key-value store as the in-memory stand-in `FakeValkey` implements it, plus the
    Redis string keyspace that the lock commands use, and `set_job_status`.

    A store is an immutable value; every command is a function from a store to the next
    store (and the command's reply). */
module Valkey {
  import opened Results
  import opened Seqs
  import opened Text
  import Glob

  /** A value held in a hash field, a list or a channel. `Bytes(t)` is a bytes object whose
      UTF-8 decoding is `t` (what the Redis client returns); `Doc(m)` is the JSON encoding
      of the mapping `m`, kept abstract. */
  datatype Value =
    | Str(s: string)
    | Bytes(text: string)
    | Int(i: int)
    | Float(r: real)
    | StrList(items: seq<string>)
    | Doc(fields: map<string, Value>)

  type Hash = map<string, Value>

  /** `hashes` is FakeValkey's `store`, enumerated in `order` (dict insertion order);
      `strings` holds the plain string keys of the Redis keyspace; `lists` and `channels`
      are FakeValkey's `_lists` and `_channels`. */
  datatype Store = Store(
    hashes: map<string, Hash>,
    order: seq<string>,
    strings: map<string, string>,
    lists: map<string, seq<Value>>,
    channels: map<string, seq<Value>>)

  /** The store after a command that may raise, and the command's reply or exception. */
  datatype Step<+T> = Step(st: Store, out: Result<T>)

  /** Representation invariant: `order` enumerates every hash key exactly once. */
  ghost predicate Valid(st: Store) {
    && NoDups(st.order)
    && (forall k :: k in st.order <==> k in st.hashes)
  }

  function Empty(): (st: Store)
    ensures Valid(st)
  {
    Store(map[], [], map[], map[], map[])
  }

  /** `EXISTS key` over every kind of key. */
  predicate Exists(st: Store, key: string) {
    key in st.hashes || key in st.strings || key in st.lists
  }

  /** The insertion order after `name` is set in the dict (a new key goes last). */
  function AddKey(order: seq<string>, name: string): (r: seq<string>)
    ensures name in r
    ensures forall k :: k in r <==> k in order || k == name
    ensures NoDups(order) ==> NoDups(r)
    ensures name in order ==> r == order
  {
    if name in order then order else order + [name]
  }

  /** The insertion order after `name` is popped from the dict. */
  function RemoveKey(order: seq<string>, name: string): (r: seq<string>)
    ensures forall k :: k in r <==> k in order && k != name
    ensures NoDups(order) ==> NoDups(r)
  {
    Filter(order, k => k != name)
  }

  // ---------------------------------------------------------------- hashes

  /** `hgetall`: a copy of the hash, empty when the name is absent. */
  function HGetAll(st: Store, name: string): (h: Hash)
    ensures name !in st.hashes ==> h == map[]
  {
    if name in st.hashes then st.hashes[name] else map[]
  }

  /** The test "`hgetall` of this name is non-empty", the one every listing applies. */
  function HoldsHash(st: Store): string -> bool {
    k => HGetAll(st, k) != map[]
  }

  /** `hset(name, mapping, **kwargs)`: sets the given fields of the hash (creating it if
      absent), `kwargs` after `mapping`; every other field and every other key is kept. */
  function HSet(st: Store, name: string, mapping: Hash, kwargs: Hash): (r: Store)
    ensures name in r.hashes
    ensures HGetAll(r, name).Keys == HGetAll(st, name).Keys + mapping.Keys + kwargs.Keys
    ensures HGetAll(r, name) == HGetAll(st, name) + mapping + kwargs
    ensures forall f :: f in kwargs ==> HGetAll(r, name)[f] == kwargs[f]
    ensures forall f :: f in mapping && f !in kwargs ==> HGetAll(r, name)[f] == mapping[f]
    ensures forall f :: f !in mapping && f !in kwargs ==>
              (f in HGetAll(r, name) <==> f in HGetAll(st, name)) &&
              (f in HGetAll(st, name) ==> HGetAll(r, name)[f] == HGetAll(st, name)[f])
    ensures forall n :: n != name ==> HGetAll(r, n) == HGetAll(st, n) && (n in r.hashes <==> n in st.hashes)
    ensures r.strings == st.strings && r.lists == st.lists && r.channels == st.channels
    ensures Valid(st) ==> Valid(r)
  {
    var data := HGetAll(st, name);
    st.(hashes := st.hashes[name := data + mapping + kwargs], order := AddKey(st.order, name))
  }

  /** Merging a one-field mapping is updating that field. */
  lemma MergeField(h: Hash, f: string, v: Value)
    ensures h + map[f := v] == h[f := v]
  {
  }

  /** `hset(name, field, value)`: one field set, everything else kept. */
  function HSetField(st: Store, name: string, f: string, v: Value): (r: Store)
    ensures HGetAll(r, name) == HGetAll(st, name)[f := v]
    ensures forall n :: n != name ==> HGetAll(r, n) == HGetAll(st, n) && (n in r.hashes <==> n in st.hashes)
    ensures r.strings == st.strings && r.lists == st.lists && r.channels == st.channels
    ensures Valid(st) ==> Valid(r)
  {
    var r := HSet(st, name, map[f := v], map[]);
    assert HGetAll(r, name) == HGetAll(st, name)[f := v] by {
      MergeField(HGetAll(st, name), f, v);
      assert HGetAll(st, name) + map[f := v] + map[] == HGetAll(st, name) + map[f := v];
    }
    r
  }

  /** `hset` reads and writes only the hashes and their order. */
  lemma HSetReadsHashes(a: Store, b: Store, name: string, mapping: Hash, kwargs: Hash)
    requires a.hashes == b.hashes && a.order == b.order
    ensures HSet(a, name, mapping, kwargs).hashes == HSet(b, name, mapping, kwargs).hashes
    ensures HSet(a, name, mapping, kwargs).order == HSet(b, name, mapping, kwargs).order
  {
  }

  /** Python's `int(v)`; `Err` where it raises. */
  function IntOf(v: Value): Result<int> {
    match v
    case Int(i) => Ok(i)
    case Float(x) => Ok(if x >= 0.0 then x.Floor else -((-x).Floor))
    case Str(s) => (match ParseInt(s) case Some(n) => Ok(n) case None => Err("invalid literal for int() with base 10"))
    case Bytes(t) => (match ParseBytesInt(t) case Some(n) => Ok(n) case None => Err("invalid literal for int() with base 10"))
    case _ => Err("int() argument must be a string, a bytes-like object or a real number")
  }

  /** `hincrby(name, key, amount)`: the field's integer value plus `amount`, stored back as
      an integer. The hash is created (empty) before the field is read, so a field that
      `int()` rejects leaves an empty hash behind when the name was absent. */
  function HIncrBy(st: Store, name: string, field: string, amount: int): (r: Step<int>)
    ensures name in r.st.hashes
    ensures field !in HGetAll(st, name) ==> r.out == Ok(amount)
    ensures forall n :: field in HGetAll(st, name) && HGetAll(st, name)[field] == Int(n) ==>
              r.out == Ok(n + amount)
    ensures r.out.Ok? ==> HGetAll(r.st, name) == HGetAll(st, name)[field := Int(r.out.value)]
    ensures r.out.Err? ==> HGetAll(r.st, name) == HGetAll(st, name)
    ensures field in HGetAll(st, name) ==> (r.out.Err? <==> IntOf(HGetAll(st, name)[field]).Err?)
    ensures field in HGetAll(st, name) && IntOf(HGetAll(st, name)[field]).Ok? ==>
              r.out == Ok(IntOf(HGetAll(st, name)[field]).value + amount)
    ensures forall n :: n != name ==> HGetAll(r.st, n) == HGetAll(st, n)
    ensures Valid(st) ==> Valid(r.st)
  {
    var data := HGetAll(st, name);
    var created := st.(hashes := st.hashes[name := data], order := AddKey(st.order, name));
    var current := if field in data then IntOf(data[field]) else Ok(0);
    match current
    case Err(e) => Step(created, Err(e))
    case Ok(n) =>
      Step(created.(hashes := created.hashes[name := data[field := Int(n + amount)]]), Ok(n + amount))
  }

  /** Two increments of an integer field add up. */
  lemma HIncrByTwice(st: Store, name: string, field: string, a: int, b: int)
    requires field !in HGetAll(st, name) || HGetAll(st, name)[field].Int?
    ensures var first := HIncrBy(st, name, field, a);
            var start := if field in HGetAll(st, name) then HGetAll(st, name)[field].i else 0;
            first.out.Ok? && HIncrBy(first.st, name, field, b).out == Ok(start + a + b)
  {
  }

  /** `hincrby` adds `amount` to whatever number `int()` reads from the field. */
  lemma HIncrByReadsIntOf(st: Store, name: string, field: string, amount: int, n: int)
    requires field in HGetAll(st, name) && IntOf(HGetAll(st, name)[field]) == Ok(n)
    ensures HIncrBy(st, name, field, amount).out == Ok(n + amount)
    ensures HGetAll(HIncrBy(st, name, field, amount).st, name) == HGetAll(st, name)[field := Int(n + amount)]
  {
  }

  /** A text holding the decimal spelling of a number, padded with whitespace, is read by
      `int()` as that number: `int(" 7 ")` is 7. */
  lemma IntOfPaddedText(n: int, pre: string, post: string)
    requires AllSpace(pre, false) && AllSpace(post, false)
    ensures IntOf(Str(pre + IntToString(n) + post)) == Ok(n)
  {
    ParseIntToString(n, pre, post, false);
  }

  /** A field holding padded decimal text is incremented like the number it spells. */
  lemma HIncrByPaddedText(st: Store, name: string, field: string, n: int, amount: int, pre: string, post: string)
    requires AllSpace(pre, false) && AllSpace(post, false)
    requires field in HGetAll(st, name) && HGetAll(st, name)[field] == Str(pre + IntToString(n) + post)
    ensures HIncrBy(st, name, field, amount).out == Ok(n + amount)
    ensures HGetAll(HIncrBy(st, name, field, amount).st, name) == HGetAll(st, name)[field := Int(n + amount)]
  {
    var v := HGetAll(st, name)[field];
    assert IntOf(v) == Ok(n) by {
      IntOfPaddedText(n, pre, post);
    }
    HIncrByReadsIntOf(st, name, field, amount, n);
  }

  // ---------------------------------------------------------------- keys

  /** The keys FakeValkey's `keys(pattern)` accepts: everything for `*`, a prefix for a
      pattern ending in `*`, otherwise the literal pattern. */
  predicate FakeMatch(pattern: string, k: string) {
    if pattern == "*" then true
    else if |pattern| > 0 && pattern[|pattern| - 1] == '*' then IsPrefix(pattern[..|pattern| - 1], k)
    else k == pattern
  }

  /** FakeValkey's `keys(pattern)`: matching hash keys, in insertion order. List keys are
      never returned. */
  function Keys(st: Store, pattern: string): (r: seq<string>)
    ensures pattern == "*" ==> r == st.order
    ensures forall k :: k in r ==> k in st.order && FakeMatch(pattern, k)
    ensures Valid(st) ==> forall k :: k in r <==> k in st.hashes && FakeMatch(pattern, k)
    ensures Valid(st) ==> NoDups(r)
  {
    if pattern == "*" then st.order
    else if |pattern| > 0 && pattern[|pattern| - 1] == '*' then
      var prefix := pattern[..|pattern| - 1];
      Filter(st.order, k => IsPrefix(prefix, k))
    else Filter(st.order, k => k == pattern)
  }

  /** Redis `KEYS pattern` for patterns whose only wildcard is `*`, enumerated in the
      store's key order. */
  function GlobKeys(st: Store, pattern: string): (r: seq<string>)
    ensures forall k :: k in r ==> k in st.order && Glob.Match(pattern, k)
    ensures Valid(st) ==> forall k :: k in r <==> k in st.hashes && Glob.Match(pattern, k)
    ensures Valid(st) ==> NoDups(r)
  {
    Filter(st.order, k => Glob.Match(pattern, k))
  }

  /** For `*`, for a literal prefix followed by `*`, and for a literal, FakeValkey's matching
      agrees with Redis glob matching. */
  lemma KeysAgreeWithGlob(st: Store, pattern: string)
    requires pattern == "*" || '*' !in pattern ||
             ('*' !in pattern[..|pattern| - 1] && pattern[|pattern| - 1] == '*')
    ensures Keys(st, pattern) == GlobKeys(st, pattern)
  {
    forall k | k in st.order
      ensures FakeMatch(pattern, k) == Glob.Match(pattern, k)
    {
      if pattern == "*" {
        Glob.MatchStar(k);
      } else if '*' !in pattern {
        Glob.MatchLiteral(pattern, k);
      } else {
        var lit := pattern[..|pattern| - 1];
        assert pattern == lit + "*";
        Glob.MatchPrefixPattern(lit, k);
      }
    }
    if pattern == "*" {
      FilterAll(st.order, k => Glob.Match(pattern, k));
    } else if |pattern| > 0 && pattern[|pattern| - 1] == '*' {
      var prefix := pattern[..|pattern| - 1];
      FilterCongruence(st.order, k => IsPrefix(prefix, k), k => Glob.Match(pattern, k));
    } else {
      FilterCongruence(st.order, k => k == pattern, k => Glob.Match(pattern, k));
    }
  }

  // ---------------------------------------------------------------- lists

  function ListAt(st: Store, name: string): seq<Value> {
    if name in st.lists then st.lists[name] else []
  }

  /** `lpush(name, *values)`: the values go to the head of the list, in argument order. */
  function LPush(st: Store, name: string, values: seq<Value>): (r: Store)
    ensures ListAt(r, name) == values + ListAt(st, name)
    ensures forall n :: n != name ==> ListAt(r, n) == ListAt(st, n)
    ensures r.hashes == st.hashes && r.order == st.order && r.strings == st.strings
    ensures r.channels == st.channels
  {
    st.(lists := st.lists[name := values + ListAt(st, name)])
  }

  /** A Python slice bound `i` normalised against a sequence of length `n`. */
  function PyIndex(i: int, n: nat): (r: nat)
    ensures r <= n
    ensures 0 <= i <= n ==> r == i
    ensures -(n as int) <= i < 0 ==> r == n + i
  {
    if i < 0 then (if n + i < 0 then 0 else n + i) else (if i > n then n else i)
  }

  /** Python's `s[a:b]`. */
  function PySlice<T>(s: seq<T>, a: int, b: int): (r: seq<T>)
    ensures |r| <= |s|
    ensures 0 <= a <= b <= |s| ==> r == s[a..b]
    ensures b <= a && (0 <= b || a < 0) && (a <= |s| || b > |s|) ==> r == []
  {
    var lo := PyIndex(a, |s|);
    var hi := PyIndex(b, |s|);
    if lo <= hi then s[lo..hi] else []
  }

  /** `lrange(name, start, end)`: the suffix from `start` when `end` is -1, otherwise the
      elements `start..end` inclusive, both with Python slice semantics. */
  function LRange(st: Store, name: string, start: int, end: int): (r: seq<Value>)
    ensures 0 <= start <= |ListAt(st, name)| && end == -1 ==> r == ListAt(st, name)[start..]
    ensures 0 <= start <= end < |ListAt(st, name)| ==> r == ListAt(st, name)[start..end + 1]
    ensures |r| <= |ListAt(st, name)|
  {
    var lst := ListAt(st, name);
    if end == -1 then PySlice(lst, start, |lst|) else PySlice(lst, start, end + 1)
  }

  /** The values just pushed are read back first, in order, ahead of the older ones. */
  lemma LPushThenLRange(st: Store, name: string, values: seq<Value>)
    requires |values| > 0
    ensures LRange(LPush(st, name, values), name, 0, |values| - 1) == values
    ensures LRange(LPush(st, name, values), name, 0, -1) == values + ListAt(st, name)
  {
    var r := LPush(st, name, values);
    assert ListAt(r, name)[0..|values|] == values;
  }

  // ---------------------------------------------------------------- strings

  /** FakeValkey's `set(name, value)`: the name now holds the one-field hash
      `{"value": value}`, replacing any hash stored there. */
  function Set(st: Store, name: string, value: Value): (r: Store)
    ensures HGetAll(r, name) == map["value" := value]
    ensures forall n :: n != name ==> HGetAll(r, n) == HGetAll(st, n)
    ensures r.lists == st.lists && r.channels == st.channels && r.strings == st.strings
    ensures Valid(st) ==> Valid(r)
  {
    st.(hashes := st.hashes[name := map["value" := value]], order := AddKey(st.order, name))
  }

  /** FakeValkey's `get(name)`: the hash's `value` field, if any. */
  function Get(st: Store, name: string): (r: Option<Value>)
    ensures r.Some? <==> "value" in HGetAll(st, name)
    ensures r.Some? ==> r.value == HGetAll(st, name)["value"]
  {
    var data := HGetAll(st, name);
    if "value" in data then Some(data["value"]) else None
  }

  lemma SetThenGet(st: Store, name: string, value: Value, other: string)
    requires other != name
    ensures Get(Set(st, name, value), name) == Some(value)
    ensures Get(Set(st, name, value), other) == Get(st, other)
  {
  }

  /** `delete(name)`: the name disappears as a hash, a list and a string key; an absent
      name is a no-op. Channels are not keys and are kept. */
  function Delete(st: Store, name: string): (r: Store)
    ensures !Exists(r, name)
    ensures HGetAll(r, name) == map[] && ListAt(r, name) == []
    ensures forall n :: n != name ==> HGetAll(r, n) == HGetAll(st, n) && ListAt(r, n) == ListAt(st, n)
    ensures forall n :: n != name && n in st.strings ==> n in r.strings && r.strings[n] == st.strings[n]
    ensures r.channels == st.channels
    ensures !Exists(st, name) && Valid(st) ==> r == st
    ensures Valid(st) ==> Valid(r)
  {
    if !Exists(st, name) && name !in st.order then st
    else
      st.(hashes := st.hashes - {name}, order := RemoveKey(st.order, name),
          strings := st.strings - {name}, lists := st.lists - {name})
  }

  /** `flushdb`: every key goes; channel queues survive (FakeValkey does not clear them). */
  function FlushDb(st: Store): (r: Store)
    ensures Valid(r)
    ensures forall n :: !Exists(r, n)
    ensures r.channels == st.channels
  {
    Store(map[], [], map[], map[], st.channels)
  }

  // ---------------------------------------------------------------- pub/sub

  /** Messages waiting on a channel, oldest first. */
  function Pending(st: Store, channel: string): seq<Value> {
    if channel in st.channels then st.channels[channel] else []
  }

  /** `publish(channel, message)`: appends to the channel's queue. */
  function Publish(st: Store, channel: string, message: Value): (r: Store)
    ensures Pending(r, channel) == Pending(st, channel) + [message]
    ensures forall c :: c != channel ==> Pending(r, c) == Pending(st, c)
    ensures r.hashes == st.hashes && r.order == st.order && r.strings == st.strings && r.lists == st.lists
  {
    st.(channels := st.channels[channel := Pending(st, channel) + [message]])
  }

  /** A `_FakePubSub`: the channels it is subscribed to, in subscription order. */
  datatype Subscription = Subscription(channels: seq<string>)

  /** `subscribe(channel)`: appends the channel unless already subscribed. */
  function Subscribe(sub: Subscription, channel: string): (r: Subscription)
    ensures channel in r.channels
    ensures forall c :: c in r.channels <==> c in sub.channels || c == channel
    ensures channel in sub.channels ==> r == sub
    ensures NoDups(sub.channels) ==> NoDups(r.channels)
  {
    Subscription(AddKey(sub.channels, channel))
  }

  /** `close()`: drops every subscription. */
  function Close(sub: Subscription): (r: Subscription)
    ensures forall c :: c !in r.channels
  {
    Subscription([])
  }

  /** Index of the first subscribed channel with a waiting message. */
  function FirstReady(st: Store, subs: seq<string>): (r: Option<nat>)
    ensures r.Some? ==> r.value < |subs| && Pending(st, subs[r.value]) != [] &&
                        forall j :: 0 <= j < r.value ==> Pending(st, subs[j]) == []
    ensures r.None? ==> forall j :: 0 <= j < |subs| ==> Pending(st, subs[j]) == []
  {
    if |subs| == 0 then None
    else if Pending(st, subs[0]) != [] then Some(0)
    else
      match FirstReady(st, subs[1..])
      case None => None
      case Some(i) => Some(i + 1)
  }

  /** `get_message()`: removes and returns the oldest message of the first subscribed
      channel that has one; `None`, with nothing removed, when none has. FakeValkey wraps
      the message as `{"type": "message", "data": message}`; the wrapper is the same for
      every message, so only `data` is returned here. */
  function GetMessage(st: Store, sub: Subscription): (r: (Store, Option<Value>))
    ensures r.1.None? <==> forall j :: 0 <= j < |sub.channels| ==> Pending(st, sub.channels[j]) == []
    ensures r.1.None? ==> r.0 == st
    ensures r.1.Some? ==>
              exists i :: 0 <= i < |sub.channels| &&
                (forall j :: 0 <= j < i ==> Pending(st, sub.channels[j]) == []) &&
                Pending(st, sub.channels[i]) == [r.1.value] + Pending(r.0, sub.channels[i]) &&
                (forall c :: c != sub.channels[i] ==> Pending(r.0, c) == Pending(st, c))
    ensures r.0.hashes == st.hashes && r.0.order == st.order && r.0.lists == st.lists
    ensures r.0.strings == st.strings
  {
    match FirstReady(st, sub.channels)
    case None => (st, None)
    case Some(i) =>
      var channel := sub.channels[i];
      var queue := Pending(st, channel);
      var rest := st.(channels := st.channels[channel := queue[1..]]);
      assert Pending(rest, channel) == queue[1..];
      assert forall c :: c != channel ==> Pending(rest, c) == Pending(st, c);
      assert queue == [queue[0]] + queue[1..];
      (rest, Some(queue[0]))
  }

  /** Channels are shared queues, not per-subscriber: two messages published before anyone
      subscribes are delivered to a later subscriber, in publication order. */
  lemma PublishedBeforeSubscribeDeliveredInOrder(st: Store, channel: string, m1: Value, m2: Value)
    requires Pending(st, channel) == []
    ensures var sub := Subscribe(Subscription([]), channel);
            var published := Publish(Publish(st, channel, m1), channel, m2);
            var first := GetMessage(published, sub);
            var second := GetMessage(first.0, sub);
            first.1 == Some(m1) && second.1 == Some(m2) && GetMessage(second.0, sub).1 == None
  {
    var sub := Subscribe(Subscription([]), channel);
    assert sub.channels == [channel];
    var published := Publish(Publish(st, channel, m1), channel, m2);
    assert Pending(published, channel) == [m1, m2];
    var first := GetMessage(published, sub);
    assert Pending(first.0, channel) == [m2];
    var second := GetMessage(first.0, sub);
    assert Pending(second.0, channel) == [];
  }

  // ---------------------------------------------------------------- decoding

  function DecodeValue(v: Value): Value {
    match v
    case Bytes(t) => Str(t)
    case _ => v
  }

  /** `_decode_map`: every key kept, every bytes value replaced by its decoded text, every
      other value kept. */
  function DecodeMap(h: Hash): (r: Hash)
    ensures r.Keys == h.Keys
    ensures forall f :: f in h && h[f].Bytes? ==> r[f] == Str(h[f].text)
    ensures forall f :: f in h && !h[f].Bytes? ==> r[f] == h[f]
  {
    map f | f in h :: DecodeValue(h[f])
  }

  /** Decoding leaves no bytes behind, so decoding twice is decoding once. */
  lemma DecodeMapIdempotent(h: Hash)
    ensures DecodeMap(DecodeMap(h)) == DecodeMap(h)
  {
  }

  // ---------------------------------------------------------------- job status

  function JobKey(jobId: string): string {
    "jobs:" + jobId
  }

  function JobEventsChannel(jobId: string): string {
    "jobs:" + jobId + ":events"
  }

  /** The fields `set_job_status` writes: always `status`, `progress` only when given, `error`
      only when non-empty (an absent error is the empty string here). */
  function StatusMapping(status: string, progress: Option<real>, error: string): (m: Hash)
    ensures "status" in m && m["status"] == Str(status)
    ensures "progress" in m <==> progress.Some?
    ensures progress.Some? ==> m["progress"] == Float(progress.value)
    ensures "error" in m <==> error != ""
    ensures error != "" ==> m["error"] == Str(error)
    ensures forall f :: f in m ==> f == "status" || f == "progress" || f == "error"
  {
    var m := map["status" := Str(status)];
    var m' := if progress.Some? then m["progress" := Float(progress.value)] else m;
    if error != "" then m'["error" := Str(error)] else m'
  }

  /** `set_job_status`: merges the status mapping into the job hash, then publishes the same
      mapping on the job's event channel. The publish is best-effort: when it does not go
      through (`delivered` false) nothing is raised and only the channel is left as it was. */
  function SetJobStatus(st: Store, jobId: string, status: string, progress: Option<real>,
                        error: string, delivered: bool): (r: Store)
    ensures HGetAll(r, JobKey(jobId)) == HGetAll(st, JobKey(jobId)) + StatusMapping(status, progress, error)
    ensures HGetAll(r, JobKey(jobId))["status"] == Str(status)
    ensures forall f :: f != "status" && f != "progress" && f != "error" && f in HGetAll(st, JobKey(jobId)) ==>
              f in HGetAll(r, JobKey(jobId)) && HGetAll(r, JobKey(jobId))[f] == HGetAll(st, JobKey(jobId))[f]
    ensures forall n :: n != JobKey(jobId) ==> HGetAll(r, n) == HGetAll(st, n)
    ensures delivered ==>
              Pending(r, JobEventsChannel(jobId)) ==
              Pending(st, JobEventsChannel(jobId)) + [Doc(StatusMapping(status, progress, error))]
    ensures !delivered ==> r.channels == st.channels
    ensures forall c :: c != JobEventsChannel(jobId) ==> Pending(r, c) == Pending(st, c)
    ensures r.lists == st.lists && r.strings == st.strings
    ensures Valid(st) ==> Valid(r)
  {
    var mapping := StatusMapping(status, progress, error);
    var written := HSet(st, JobKey(jobId), mapping, map[]);
    if delivered then Publish(written, JobEventsChannel(jobId), Doc(mapping)) else written
  }
}
