/** The read-through cache decorator over a fallback repository. Get, Exist,
    Size and List consult Redis under a key derived from the action and the
    JSON of their arguments, call the fallback on a miss or an unusable entry
    and write its answer back; Delete evicts the Get entry of its
    specifications; Save and Each pass straight through. The request context is
    handed to the fallback unchanged and is not modelled; neither is the debug
    logging. */
module RedisRepository {
  import opened Base
  import opened Uint32
  import opened Specification
  import RM = RedisManager

  const GetAction: string := "GET"
  const ExistAction: string := "EXIST"
  const ListAction: string := "LIST"
  const SizeAction: string := "SIZE"

  /** The wrapped repository, reduced to its answers; `I` is its iterator type. */
  datatype Fallback<!E, !S, I> = Fallback(
    get: seq<S> -> Ret<E>,
    exist: seq<S> -> Ret<bool>,
    list: ListArgs<S> -> Ret<Option<seq<E>>>,
    size: seq<S> -> Ret<uint32>,
    delete: seq<S> -> Option<Error>,
    save: E -> Option<Error>,
    each: ListArgs<S> -> Ret<Option<I>>)

  /** `json.Marshal` and `json.Unmarshal` at the types the decorator uses them:
      the arguments that become keys, the cached entity JSON, booleans and counts. */
  datatype Json<!S, !J> = Json(
    specs: RM.Marshal<seq<S>>,
    args: RM.Marshal<ListArgs<S>>,
    entity: RM.Marshal<J>,
    entities: RM.Marshal<seq<J>>,
    flag: RM.Marshal<bool>,
    count: RM.Marshal<uint32>,
    parseEntity: Bytes -> Result<J>,
    parseEntities: Bytes -> Result<seq<J>>,
    parseFlag: Bytes -> Result<bool>,
    parseCount: Bytes -> Result<uint32>)

  /** What the decorator calls but does not own: MD5, JSON and the fallback. */
  datatype Env<!E, !S, !J, I> = Env(md5: Bytes -> RM.Digest, json: Json<S, J>, fallback: Fallback<E, S, I>)

  /** The decorator's own fields. `key` prefixes every cache key; `encode` and
      `decode` convert between an entity and its JSON form. */
  datatype Repo<!E, !J> = Repo(resource: string, key: string, expiration: nat, encode: E -> Result<J>, decode: J -> Ret<E>)

  /** A call's answer, the Redis state after it, and whether it reached the fallback. */
  datatype Outcome<V> = Outcome(client: RM.Client, result: Ret<V>, fellBack: bool)

  /** `GetKey`: the manager's key under the prefix `<key>.<action>`: the
      marshalling error with an empty key, or the hex MD5 of
      `<key>.<action>/<JSON>`. */
  function GetKey<E, J, V>(r: Repo<E, J>, md5: Bytes -> RM.Digest, action: string, value: V, marshal: RM.Marshal<V>): (k: Ret<string>)
    ensures marshal(value).Err? ==> k == Ret("", Some(marshal(value).error))
    ensures marshal(value).Ok? ==>
      && k.err.None? && |k.value| == 32
      && RM.Unhex(k.value) == Some(md5(r.key + "." + action + "/" + marshal(value).value))
  {
    RM.Key(md5, r.key + "." + action, value, marshal)
  }

  // ---------------------------------------------------------------- read-through

  /** How a cache lookup went: no key could be made, the GET failed, the key
      is absent, the entry does not parse, or the entry parsed to `payload`. */
  datatype Lookup<P> = KeyFailed | ReadFailed | Miss(key: string) | Undecodable(key: string) | Hit(key: string, payload: P)

  function Classify<P>(c: RM.Client, key: Ret<string>, parse: Bytes -> Result<P>): (l: Lookup<P>)
    ensures l.KeyFailed? <==> key.err.Some?
    ensures l.ReadFailed? <==> key.err.None? && c.getFault.Some?
    ensures l.Miss? <==> key.err.None? && c.getFault.None? && key.value !in c.store
    ensures l.Undecodable? <==> key.err.None? && c.getFault.None? && key.value in c.store && parse(c.store[key.value]).Err?
    ensures l.Hit? <==> key.err.None? && c.getFault.None? && key.value in c.store && parse(c.store[key.value]).Ok?
    ensures (l.Miss? || l.Undecodable? || l.Hit?) ==> l.key == key.value
    ensures l.Hit? ==> l.payload == parse(c.store[key.value]).value
  {
    if key.err.Some? then KeyFailed
    else
      var got := RM.Get(c, key.value);
      if got.err.Some? then ReadFailed
      else match got.value
        case None => Miss(key.value)
        case Some(bytes) =>
          match parse(bytes)
          case Err(_) => Undecodable(key.value)
          case Ok(p) => Hit(key.value, p)
  }

  /** The shape Get, Exist and Size share. Without a key or a working GET the
      fallback's answer is returned as is and the cache is left alone. On a
      miss or an unparsable entry the fallback is asked; its error is returned
      with nothing written, and otherwise its value is written back and
      returned together with the write's error. A parsed entry is answered by
      `hit` without the fallback. */
  function ReadThrough<V, P>(c: RM.Client, key: Ret<string>, parse: Bytes -> Result<P>, fetched: Ret<V>,
                             store: RM.Marshal<V>, hit: P -> Ret<V>): (o: Outcome<V>)
    ensures var l := Classify(c, key, parse);
      && (l.KeyFailed? || l.ReadFailed? ==> o == Outcome(c, fetched, true))
      && ((l.Miss? || l.Undecodable?) && fetched.err.Some? ==> o == Outcome(c, fetched, true))
      && ((l.Miss? || l.Undecodable?) && fetched.err.None? && store(fetched.value).Err? ==>
            o == Outcome(c, Ret(fetched.value, Some(store(fetched.value).error)), true))
      && ((l.Miss? || l.Undecodable?) && fetched.err.None? && store(fetched.value).Ok? && c.setFault.Some? ==>
            o == Outcome(c, Ret(fetched.value, c.setFault), true))
      && ((l.Miss? || l.Undecodable?) && fetched.err.None? && store(fetched.value).Ok? && c.setFault.None? ==>
            o == Outcome(c.(store := c.store[l.key := store(fetched.value).value]), Ret(fetched.value, None), true))
      && (l.Hit? ==> o == Outcome(c, hit(l.payload), false))
    ensures o.fellBack ==> o.result.value == fetched.value
  {
    match Classify(c, key, parse)
    case KeyFailed => Outcome(c, fetched, true)
    case ReadFailed => Outcome(c, fetched, true)
    case Miss(k) => WriteBack(c, k, fetched, store)
    case Undecodable(k) => WriteBack(c, k, fetched, store)
    case Hit(_, p) => Outcome(c, hit(p), false)
  }

  /** After a miss: the fallback's error, or its value with the write's error. */
  function WriteBack<V>(c: RM.Client, key: string, fetched: Ret<V>, store: RM.Marshal<V>): Outcome<V>
  {
    if fetched.err.Some? then Outcome(c, fetched, true)
    else
      var w := RM.Set(c, key, fetched.value, store);
      Outcome(w.0, Ret(fetched.value, w.1), true)
  }

  /** A cached value answered as it is. */
  function Cached<V>(): V -> Ret<V>
  {
    v => Ret(v, None)
  }

  /** The bytes Get writes for an entity: `Encode`, then the JSON of the result. */
  function EncodeThenMarshal<E, J>(encode: E -> Result<J>, marshal: RM.Marshal<J>, e: E): Result<Bytes>
  {
    match encode(e)
    case Err(x) => Err(x)
    case Ok(j) => marshal(j)
  }

  function EntityBytes<E, S, J, I>(r: Repo<E, J>, env: Env<E, S, J, I>): RM.Marshal<E>
  {
    e => EncodeThenMarshal(r.encode, env.json.entity, e)
  }

  function GetLookupKey<E, S, J, I>(r: Repo<E, J>, env: Env<E, S, J, I>, specs: seq<S>): Ret<string>
  {
    GetKey(r, env.md5, GetAction, specs, env.json.specs)
  }

  /** Get. A hit answers `Decode` of the cached JSON, its error included. On a
      miss or an unparsable entry the fallback's entity is returned even when
      encoding or caching it fails, and that failure is returned with it. */
  function Get<E, S, J, I>(r: Repo<E, J>, env: Env<E, S, J, I>, c: RM.Client, specs: seq<S>): (o: Outcome<E>)
    ensures var l := Classify(c, GetLookupKey(r, env, specs), env.json.parseEntity);
      && (l.Hit? ==> o == Outcome(c, r.decode(l.payload), false))
      && (!l.Hit? ==> o.fellBack && o.result.value == env.fallback.get(specs).value)
      && (!l.Hit? && env.fallback.get(specs).err.Some? ==> o == Outcome(c, env.fallback.get(specs), true))
      && ((l.Miss? || l.Undecodable?) && env.fallback.get(specs).err.None? ==>
            var e := env.fallback.get(specs).value;
            && (r.encode(e).Err? ==> o == Outcome(c, Ret(e, Some(r.encode(e).error)), true))
            && (r.encode(e).Ok? && env.json.entity(r.encode(e).value).Err? ==>
                  o == Outcome(c, Ret(e, Some(env.json.entity(r.encode(e).value).error)), true))
            && (r.encode(e).Ok? && env.json.entity(r.encode(e).value).Ok? ==>
                  o == WriteBack(c, l.key, Ret(e, None), EntityBytes(r, env))))
  {
    ReadThrough(c, GetLookupKey(r, env, specs), env.json.parseEntity, env.fallback.get(specs),
                EntityBytes(r, env), r.decode)
  }

  function ExistLookupKey<E, S, J, I>(r: Repo<E, J>, env: Env<E, S, J, I>, specs: seq<S>): Ret<string>
  {
    GetKey(r, env.md5, ExistAction, specs, env.json.specs)
  }

  /** Exist: the cached boolean on a hit; otherwise the fallback's answer,
      written back when it succeeds. */
  function Exist<E, S, J, I>(r: Repo<E, J>, env: Env<E, S, J, I>, c: RM.Client, specs: seq<S>): (o: Outcome<bool>)
    ensures var l := Classify(c, ExistLookupKey(r, env, specs), env.json.parseFlag);
      && (l.Hit? ==> o == Outcome(c, Ret(l.payload, None), false))
      && (!l.Hit? ==> o.fellBack && o.result.value == env.fallback.exist(specs).value)
      && ((l.Miss? || l.Undecodable?) ==> o == WriteBack(c, l.key, env.fallback.exist(specs), env.json.flag))
      && (l.KeyFailed? || l.ReadFailed? ==> o == Outcome(c, env.fallback.exist(specs), true))
  {
    ReadThrough(c, ExistLookupKey(r, env, specs), env.json.parseFlag, env.fallback.exist(specs),
                env.json.flag, Cached())
  }

  function SizeLookupKey<E, S, J, I>(r: Repo<E, J>, env: Env<E, S, J, I>, specs: seq<S>): Ret<string>
  {
    GetKey(r, env.md5, SizeAction, specs, env.json.specs)
  }

  /** Size: the cached count on a hit; otherwise the fallback's count, written
      back when it succeeds. */
  function Size<E, S, J, I>(r: Repo<E, J>, env: Env<E, S, J, I>, c: RM.Client, specs: seq<S>): (o: Outcome<uint32>)
    ensures var l := Classify(c, SizeLookupKey(r, env, specs), env.json.parseCount);
      && (l.Hit? ==> o == Outcome(c, Ret(l.payload, None), false))
      && (!l.Hit? ==> o.fellBack && o.result.value == env.fallback.size(specs).value)
      && ((l.Miss? || l.Undecodable?) ==> o == WriteBack(c, l.key, env.fallback.size(specs), env.json.count))
      && (l.KeyFailed? || l.ReadFailed? ==> o == Outcome(c, env.fallback.size(specs), true))
  {
    ReadThrough(c, SizeLookupKey(r, env, specs), env.json.parseCount, env.fallback.size(specs),
                env.json.count, Cached())
  }

  // ---------------------------------------------------------------- list

  /** Encodes every entity in order, or fails with the first encoding error. */
  function EncodeAll<E, J>(encode: E -> Result<J>, es: seq<E>): (r: Result<seq<J>>)
    ensures r.Ok? <==> forall i :: 0 <= i < |es| ==> encode(es[i]).Ok?
    ensures r.Ok? ==> |r.value| == |es| && forall i :: 0 <= i < |es| ==> r.value[i] == encode(es[i]).value
    decreases |es|
  {
    if |es| == 0 then Ok([])
    else
      assert forall i :: 0 < i < |es| ==> es[1..][i - 1] == es[i];
      match encode(es[0])
      case Err(x) => Err(x)
      case Ok(j) =>
        match EncodeAll(encode, es[1..])
        case Err(x) => Err(x)
        case Ok(js) => Ok([j] + js)
  }

  /** Decodes every cached JSON entity in order, or fails at the first one that
      does not decode. */
  function DecodeAll<E, J>(decode: J -> Ret<E>, js: seq<J>): (r: Option<seq<E>>)
    ensures r.Some? <==> forall i :: 0 <= i < |js| ==> decode(js[i]).err.None?
    ensures r.Some? ==> |r.value| == |js| && forall i :: 0 <= i < |js| ==> r.value[i] == decode(js[i]).value
    decreases |js|
  {
    if |js| == 0 then Some([])
    else
      assert forall i :: 0 < i < |js| ==> js[1..][i - 1] == js[i];
      if decode(js[0]).err.Some? then None
      else
        match DecodeAll(decode, js[1..])
        case None => None
        case Some(es) => Some([decode(js[0]).value] + es)
  }

  /** The entities a Go slice ranges over: none for nil. */
  function Elements<E>(es: Option<seq<E>>): seq<E>
  {
    if es.Some? then es.value else []
  }

  function ListLookupKey<E, S, J, I>(r: Repo<E, J>, env: Env<E, S, J, I>, args: ListArgs<S>): Ret<string>
  {
    GetKey(r, env.md5, ListAction, args, env.json.args)
  }

  /** List. On a miss the fallback's answer is returned, its error included;
      a failure to encode or to cache the entities is swallowed. A cached list
      that does not parse, or one of whose entries does not decode, is
      answered by the fallback and is not rewritten. A hit answers the decoded
      entities in order. */
  function List<E, S, J, I>(r: Repo<E, J>, env: Env<E, S, J, I>, c: RM.Client, args: ListArgs<S>): (o: Outcome<Option<seq<E>>>)
    ensures var l := Classify(c, ListLookupKey(r, env, args), env.json.parseEntities);
      && (o.fellBack ==> o.result == env.fallback.list(args))
      && (!l.Miss? ==> o.client == c)
      && (l.KeyFailed? || l.ReadFailed? || l.Undecodable? ==> o.fellBack)
      && (l.Miss? ==> o.fellBack)
      && (l.Miss? && env.fallback.list(args).err.None? ==>
            var js := EncodeAll(r.encode, Elements(env.fallback.list(args).value));
            && (js.Err? ==> o.client == c)
            && (js.Ok? ==> o.client == RM.Set(c, l.key, js.value, env.json.entities).0))
      && (l.Miss? && env.fallback.list(args).err.Some? ==> o.client == c)
      && (l.Hit? ==> (o.fellBack <==> DecodeAll(r.decode, l.payload).None?))
      && (l.Hit? && DecodeAll(r.decode, l.payload).Some? ==>
            o.result == Ret(Some(DecodeAll(r.decode, l.payload).value), None))
  {
    var fallback := env.fallback.list(args);
    match Classify(c, ListLookupKey(r, env, args), env.json.parseEntities)
    case KeyFailed => Outcome(c, fallback, true)
    case ReadFailed => Outcome(c, fallback, true)
    case Miss(k) =>
      if fallback.err.Some? then Outcome(c, fallback, true)
      else
        (match EncodeAll(r.encode, Elements(fallback.value))
         case Err(_) => Outcome(c, fallback, true)
         case Ok(js) => Outcome(RM.Set(c, k, js, env.json.entities).0, fallback, true))
    case Undecodable(_) => Outcome(c, fallback, true)
    case Hit(_, js) =>
      match DecodeAll(r.decode, js)
      case None => Outcome(c, fallback, true)
      case Some(es) => Outcome(c, Ret(Some(es), None), false)
  }

  // ---------------------------------------------------------------- writes

  /** Delete: the fallback's error, with the cache untouched; otherwise no
      error, and the Get entry of the same specifications evicted when its key
      can be made and DEL works; both failures are swallowed. The Exist, Size
      and List entries are kept. */
  function Delete<E, S, J, I>(r: Repo<E, J>, env: Env<E, S, J, I>, c: RM.Client, specs: seq<S>): (o: Outcome<()>)
    ensures o.result.err == env.fallback.delete(specs)
    ensures env.fallback.delete(specs).Some? ==> o.client == c
    ensures var k := GetLookupKey(r, env, specs);
      env.fallback.delete(specs).None? && k.err.None? && c.delFault.None? ==>
        o.client == c.(store := c.store - {k.value})
    ensures var k := GetLookupKey(r, env, specs);
      env.fallback.delete(specs).None? && (k.err.Some? || c.delFault.Some?) ==> o.client == c
  {
    var err := env.fallback.delete(specs);
    if err.Some? then Outcome(c, Ret((), err), true)
    else
      var k := GetLookupKey(r, env, specs);
      if k.err.Some? then Outcome(c, Ret((), None), true)
      else Outcome(RM.Delete(c, k.value).0, Ret((), None), true)
  }

  /** Save: the fallback's answer; the cache is not touched. */
  function Save<E, S, J, I>(r: Repo<E, J>, env: Env<E, S, J, I>, c: RM.Client, e: E): (o: Outcome<()>)
    ensures o.client == c && o.result.err == env.fallback.save(e)
  {
    Outcome(c, Ret((), env.fallback.save(e)), true)
  }

  /** Each: the fallback's iterator; the cache is not touched. */
  function Each<E, S, J, I>(r: Repo<E, J>, env: Env<E, S, J, I>, c: RM.Client, args: ListArgs<S>): (o: Outcome<Option<I>>)
    ensures o.client == c && o.result == env.fallback.each(args)
  {
    Outcome(c, env.fallback.each(args), true)
  }

  // ---------------------------------------------------------------- constructors

  /** `NewRedisRepository`: copies the resource, the manager, the fallback and
      the codec, but leaves `Key` empty and `Expiration` zero. */
  function NewRedisRepository<E, J>(resource: string, encode: E -> Result<J>, decode: J -> Ret<E>): (r: Repo<E, J>)
    ensures r.resource == resource && r.encode == encode && r.decode == decode
    ensures r.key == "" && r.expiration == 0
  {
    Repo(resource, "", 0, encode, decode)
  }

  /** Because the key prefix is empty, two decorators over different resources
      derive the same cache key from the same specifications, so a Get on one
      can answer with the other's cached entity. */
  lemma ResourcesShareKeys<E, J, V>(md5: Bytes -> RM.Digest, e1: E -> Result<J>, d1: J -> Ret<E>,
                                    e2: E -> Result<J>, d2: J -> Ret<E>, value: V, marshal: RM.Marshal<V>)
    ensures NewRedisRepository("users", e1, d1).resource != NewRedisRepository("orders", e2, d2).resource
    ensures GetKey(NewRedisRepository("users", e1, d1), md5, GetAction, value, marshal) ==
            GetKey(NewRedisRepository("orders", e2, d2), md5, GetAction, value, marshal)
  {
  }

  /** The constructor with the key prefix set to the resource, as the unused
      `Resource` field suggests. */
  function NewRedisRepositoryKeyed<E, J>(resource: string, encode: E -> Result<J>, decode: J -> Ret<E>): (r: Repo<E, J>)
    ensures r.resource == resource && r.key == resource && r.encode == encode && r.decode == decode
  {
    Repo(resource, resource, 0, encode, decode)
  }

  lemma {:induction false} SuffixCancels(a: string, b: string, suffix: string)
    requires a + suffix == b + suffix
    ensures a == b
  {
    assert |a| == |b|;
    assert a == (a + suffix)[..|a|];
    assert b == (b + suffix)[..|b|];
  }

  /** With the resource as prefix, distinct slash-free resources hash distinct
      inputs for every action and every argument JSON, so their keys differ
      unless MD5 collides. */
  lemma KeyedResourcesHashApart<E, J>(res1: string, res2: string, e1: E -> Result<J>, d1: J -> Ret<E>,
                                      e2: E -> Result<J>, d2: J -> Ret<E>, action: string, json: Bytes)
    requires res1 != res2 && '/' !in res1 && '/' !in res2 && '/' !in action
    ensures RM.HashInput(NewRedisRepositoryKeyed(res1, e1, d1).key + "." + action, json) !=
            RM.HashInput(NewRedisRepositoryKeyed(res2, e2, d2).key + "." + action, json)
  {
    var p1 := res1 + "." + action;
    var p2 := res2 + "." + action;
    assert '/' !in p1 && '/' !in p2;
    RM.HashInputInjective(p1, json, p2, json);
    if p1 == p2 {
      assert res1 + ("." + action) == p1;
      assert res2 + ("." + action) == p2;
      SuffixCancels(res1, res2, "." + action);
    }
  }

  // ---------------------------------------------------------------- scenarios

  /** JSON that reads back as the value it was written from. */
  ghost predicate ReadsBack<V>(marshal: RM.Marshal<V>, parse: Bytes -> Result<V>, v: V)
  {
    marshal(v).Ok? && parse(marshal(v).value) == Ok(v)
  }

  /** A Redis that answers every command. */
  predicate Healthy(c: RM.Client)
  {
    c.getFault.None? && c.setFault.None? && c.delFault.None?
  }

  /** A first Get misses, asks the fallback and caches the entity; a second Get
      with the same specifications is answered from Redis by `Decode`, which
      gives the entity back when `Decode` inverts `Encode`. */
  lemma GetMissThenHit<E, S, J, I>(r: Repo<E, J>, env: Env<E, S, J, I>, c: RM.Client, specs: seq<S>)
    requires Healthy(c)
    requires GetLookupKey(r, env, specs).err.None? && GetLookupKey(r, env, specs).value !in c.store
    requires env.fallback.get(specs).err.None?
    requires r.encode(env.fallback.get(specs).value).Ok?
    requires ReadsBack(env.json.entity, env.json.parseEntity, r.encode(env.fallback.get(specs).value).value)
    ensures Get(r, env, c, specs).fellBack
    ensures Get(r, env, c, specs).result == env.fallback.get(specs)
    ensures !Get(r, env, Get(r, env, c, specs).client, specs).fellBack
    ensures Get(r, env, Get(r, env, c, specs).client, specs).result == r.decode(r.encode(env.fallback.get(specs).value).value)
  {
  }

  /** The same for Exist: the second call answers the cached boolean. */
  lemma ExistMissThenHit<E, S, J, I>(r: Repo<E, J>, env: Env<E, S, J, I>, c: RM.Client, specs: seq<S>)
    requires Healthy(c)
    requires ExistLookupKey(r, env, specs).err.None? && ExistLookupKey(r, env, specs).value !in c.store
    requires env.fallback.exist(specs).err.None?
    requires ReadsBack(env.json.flag, env.json.parseFlag, env.fallback.exist(specs).value)
    ensures Exist(r, env, c, specs) == Outcome(Exist(r, env, c, specs).client, env.fallback.exist(specs), true)
    ensures Exist(r, env, Exist(r, env, c, specs).client, specs) ==
            Outcome(Exist(r, env, c, specs).client, env.fallback.exist(specs), false)
  {
  }

  /** The same for Size: the second call answers the cached count. */
  lemma SizeMissThenHit<E, S, J, I>(r: Repo<E, J>, env: Env<E, S, J, I>, c: RM.Client, specs: seq<S>)
    requires Healthy(c)
    requires SizeLookupKey(r, env, specs).err.None? && SizeLookupKey(r, env, specs).value !in c.store
    requires env.fallback.size(specs).err.None?
    requires ReadsBack(env.json.count, env.json.parseCount, env.fallback.size(specs).value)
    ensures Size(r, env, c, specs) == Outcome(Size(r, env, c, specs).client, env.fallback.size(specs), true)
    ensures Size(r, env, Size(r, env, c, specs).client, specs) ==
            Outcome(Size(r, env, c, specs).client, env.fallback.size(specs), false)
  {
  }

  /** A List miss caches the encoded entities; the next List answers them from
      Redis, and they are the fallback's entities when `Decode` inverts `Encode`. */
  lemma ListMissThenHit<E, S, J, I>(r: Repo<E, J>, env: Env<E, S, J, I>, c: RM.Client, args: ListArgs<S>)
    requires Healthy(c)
    requires ListLookupKey(r, env, args).err.None? && ListLookupKey(r, env, args).value !in c.store
    requires env.fallback.list(args).err.None? && env.fallback.list(args).value.Some?
    requires EncodeAll(r.encode, env.fallback.list(args).value.value).Ok?
    requires ReadsBack(env.json.entities, env.json.parseEntities, EncodeAll(r.encode, env.fallback.list(args).value.value).value)
    requires var es := env.fallback.list(args).value.value;
      forall i :: 0 <= i < |es| ==> r.decode(r.encode(es[i]).value) == Ret(es[i], None)
    ensures List(r, env, c, args).result == env.fallback.list(args)
    ensures List(r, env, List(r, env, c, args).client, args) ==
            Outcome(List(r, env, c, args).client, env.fallback.list(args), false)
  {
    var es := env.fallback.list(args).value.value;
    var js := EncodeAll(r.encode, es).value;
    var d := DecodeAll(r.decode, js);
    assert forall i :: 0 <= i < |js| ==> r.decode(js[i]) == Ret(es[i], None);
    assert d.Some?;
    assert d.value == es;
  }

  /** With Redis unavailable every read answers exactly what the fallback
      answers and Redis is left as it was. */
  lemma CacheDownIsTransparent<E, S, J, I>(r: Repo<E, J>, env: Env<E, S, J, I>, c: RM.Client, specs: seq<S>, args: ListArgs<S>)
    requires c.getFault.Some?
    ensures Get(r, env, c, specs) == Outcome(c, env.fallback.get(specs), true)
    ensures Exist(r, env, c, specs) == Outcome(c, env.fallback.exist(specs), true)
    ensures Size(r, env, c, specs) == Outcome(c, env.fallback.size(specs), true)
    ensures List(r, env, c, args) == Outcome(c, env.fallback.list(args), true)
  {
  }

  /** When no key can be made from the specifications, Get, Exist and Size
      answer what the fallback answers and leave Redis as it was. */
  lemma UnkeyableSpecificationsAreTransparent<E, S, J, I>(r: Repo<E, J>, env: Env<E, S, J, I>, c: RM.Client, specs: seq<S>)
    requires env.json.specs(specs).Err?
    ensures Get(r, env, c, specs) == Outcome(c, env.fallback.get(specs), true)
    ensures Exist(r, env, c, specs) == Outcome(c, env.fallback.exist(specs), true)
    ensures Size(r, env, c, specs) == Outcome(c, env.fallback.size(specs), true)
  {
  }

  /** When no key can be made from the list arguments, List answers what the
      fallback answers and leaves Redis as it was. */
  lemma UnkeyableListArgumentsAreTransparent<E, S, J, I>(r: Repo<E, J>, env: Env<E, S, J, I>, c: RM.Client, args: ListArgs<S>)
    requires env.json.args(args).Err?
    ensures List(r, env, c, args) == Outcome(c, env.fallback.list(args), true)
  {
  }

  /** An unparsable Get entry is replaced by the fallback's entity, and the
      next Get is a hit. */
  lemma CorruptGetEntryIsRefreshed<E, S, J, I>(r: Repo<E, J>, env: Env<E, S, J, I>, c: RM.Client, specs: seq<S>)
    requires Healthy(c)
    requires GetLookupKey(r, env, specs).err.None?
    requires GetLookupKey(r, env, specs).value in c.store
    requires env.json.parseEntity(c.store[GetLookupKey(r, env, specs).value]).Err?
    requires env.fallback.get(specs).err.None?
    requires r.encode(env.fallback.get(specs).value).Ok?
    requires ReadsBack(env.json.entity, env.json.parseEntity, r.encode(env.fallback.get(specs).value).value)
    ensures Get(r, env, c, specs).result == env.fallback.get(specs)
    ensures !Get(r, env, Get(r, env, c, specs).client, specs).fellBack
  {
  }

  /** An unparsable List entry is never rewritten: every List keeps asking the
      fallback and leaves Redis as it was. */
  lemma CorruptListEntryStays<E, S, J, I>(r: Repo<E, J>, env: Env<E, S, J, I>, c: RM.Client, args: ListArgs<S>)
    requires c.getFault.None?
    requires ListLookupKey(r, env, args).err.None?
    requires ListLookupKey(r, env, args).value in c.store
    requires env.json.parseEntities(c.store[ListLookupKey(r, env, args).value]).Err?
    ensures List(r, env, c, args) == Outcome(c, env.fallback.list(args), true)
  {
  }

  /** A successful Delete makes the next Get with the same specifications miss
      and ask the fallback, but an Exist entry for them is still answered from
      Redis. */
  lemma DeleteEvictsOnlyGet<E, S, J, I>(r: Repo<E, J>, env: Env<E, S, J, I>, c: RM.Client, specs: seq<S>)
    requires Healthy(c)
    requires env.fallback.delete(specs).None?
    requires GetLookupKey(r, env, specs).err.None?
    requires ExistLookupKey(r, env, specs).err.None?
    requires ExistLookupKey(r, env, specs).value != GetLookupKey(r, env, specs).value
    requires ExistLookupKey(r, env, specs).value in c.store
    requires env.json.parseFlag(c.store[ExistLookupKey(r, env, specs).value]).Ok?
    ensures Get(r, env, Delete(r, env, c, specs).client, specs).fellBack
    ensures !Exist(r, env, Delete(r, env, c, specs).client, specs).fellBack
    ensures Exist(r, env, Delete(r, env, c, specs).client, specs).result == Exist(r, env, c, specs).result
  {
    var c' := Delete(r, env, c, specs).client;
    assert c'.store == c.store - {GetLookupKey(r, env, specs).value};
    assert c'.store[ExistLookupKey(r, env, specs).value] == c.store[ExistLookupKey(r, env, specs).value];
  }

  /** A successful Delete leaves a cached Size entry for the same
      specifications in place: the next Size is still answered from Redis. */
  lemma DeleteKeepsSizeEntry<E, S, J, I>(r: Repo<E, J>, env: Env<E, S, J, I>, c: RM.Client, specs: seq<S>)
    requires Healthy(c)
    requires env.fallback.delete(specs).None?
    requires GetLookupKey(r, env, specs).err.None?
    requires SizeLookupKey(r, env, specs).err.None?
    requires SizeLookupKey(r, env, specs).value != GetLookupKey(r, env, specs).value
    requires SizeLookupKey(r, env, specs).value in c.store
    requires env.json.parseCount(c.store[SizeLookupKey(r, env, specs).value]).Ok?
    ensures !Size(r, env, Delete(r, env, c, specs).client, specs).fellBack
    ensures Size(r, env, Delete(r, env, c, specs).client, specs).result == Size(r, env, c, specs).result
  {
    var c' := Delete(r, env, c, specs).client;
    assert c'.store == c.store - {GetLookupKey(r, env, specs).value};
    assert c'.store[SizeLookupKey(r, env, specs).value] == c.store[SizeLookupKey(r, env, specs).value];
  }

  /** A successful Delete leaves any cached List entry whose key differs from
      the evicted Get key in place: the next List answers as it did before. */
  lemma DeleteKeepsListEntry<E, S, J, I>(r: Repo<E, J>, env: Env<E, S, J, I>, c: RM.Client, specs: seq<S>, args: ListArgs<S>)
    requires Healthy(c)
    requires env.fallback.delete(specs).None?
    requires GetLookupKey(r, env, specs).err.None?
    requires ListLookupKey(r, env, args).err.None?
    requires ListLookupKey(r, env, args).value != GetLookupKey(r, env, specs).value
    requires ListLookupKey(r, env, args).value in c.store
    ensures List(r, env, Delete(r, env, c, specs).client, args).fellBack == List(r, env, c, args).fellBack
    ensures List(r, env, Delete(r, env, c, specs).client, args).result == List(r, env, c, args).result
  {
    var c' := Delete(r, env, c, specs).client;
    assert c'.store == c.store - {GetLookupKey(r, env, specs).value};
    assert c'.store[ListLookupKey(r, env, args).value] == c.store[ListLookupKey(r, env, args).value];
  }

  /** Save does not invalidate: a Get that was a hit before a Save is the same
      hit after it, whatever was saved. */
  lemma SaveKeepsStaleEntries<E, S, J, I>(r: Repo<E, J>, env: Env<E, S, J, I>, c: RM.Client, specs: seq<S>, e: E)
    requires !Get(r, env, c, specs).fellBack
    ensures Get(r, env, Save(r, env, c, e).client, specs) == Get(r, env, c, specs)
  {
  }
}
