/** The Redis database manager: cache-key derivation, and GET/SET/DEL over a
    Redis client whose store is a map from keys to byte strings. The root
    package's manager and the `manager/database/redis` copy are the same code.
    MD5 and JSON marshalling are parameters; expiry is not modelled. */
module RedisManager {
  import opened Base

  type byte = x: int | 0 <= x < 256

  /** An MD5 sum, `[16]byte`. */
  type Digest = d: seq<byte> | |d| == 16 witness seq(16, i => 0)

  /** `json.Marshal` specialised to one value type. */
  type Marshal<!V> = V -> Result<Bytes>

  // ---------------------------------------------------------------- hex

  /** The lowercase hexadecimal digit of `d`. */
  function HexDigit(d: int): char
    requires 0 <= d < 16
  {
    if d < 10 then ('0' as int + d) as char else ('a' as int + d - 10) as char
  }

  /** The value of a lowercase hexadecimal digit, if `c` is one. */
  function DigitValue(c: char): (v: Option<int>)
    ensures v.Some? ==> 0 <= v.value < 16 && HexDigit(v.value) == c
  {
    if '0' <= c <= '9' then Some(c as int - '0' as int)
    else if 'a' <= c <= 'f' then Some(c as int - 'a' as int + 10)
    else None
  }

  predicate IsHexDigit(c: char)
  {
    '0' <= c <= '9' || 'a' <= c <= 'f'
  }

  /** `hex.EncodeToString`: two lowercase digits per byte, high nibble first. */
  function Hex(bs: seq<byte>): (s: string)
    ensures |s| == 2 * |bs|
    ensures forall i :: 0 <= i < |s| ==> IsHexDigit(s[i])
    ensures forall i :: 0 <= i < |bs| ==> s[2 * i] == HexDigit(bs[i] / 16) && s[2 * i + 1] == HexDigit(bs[i] % 16)
  {
    if |bs| == 0 then []
    else
      var rest := Hex(bs[1..]);
      assert forall i :: 0 < i < |bs| ==> bs[i] == bs[1..][i - 1];
      [HexDigit(bs[0] / 16), HexDigit(bs[0] % 16)] + rest
  }

  /** The inverse of `Hex`: `None` for an odd length or a character that is
      not a lowercase hexadecimal digit. */
  function Unhex(s: string): Option<seq<byte>>
    decreases |s|
  {
    if |s| == 0 then Some([])
    else if |s| == 1 then None
    else
      match (DigitValue(s[0]), DigitValue(s[1]), Unhex(s[2..]))
      case (Some(hi), Some(lo), Some(rest)) => Some([hi * 16 + lo] + rest)
      case _ => None
  }

  lemma DigitValueHexDigit(d: int)
    requires 0 <= d < 16
    ensures DigitValue(HexDigit(d)) == Some(d)
  {
  }

  lemma {:induction false} UnhexHex(bs: seq<byte>)
    ensures Unhex(Hex(bs)) == Some(bs)
  {
    if |bs| > 0 {
      var s := Hex(bs);
      assert s[2..] == Hex(bs[1..]);
      UnhexHex(bs[1..]);
      DigitValueHexDigit(bs[0] / 16);
      DigitValueHexDigit(bs[0] % 16);
      assert [bs[0]] + bs[1..] == bs;
    }
  }

  /** Different byte strings never share a hex rendering. */
  lemma HexInjective(a: seq<byte>, b: seq<byte>)
    ensures Hex(a) == Hex(b) ==> a == b
  {
    UnhexHex(a);
    UnhexHex(b);
  }

  // ---------------------------------------------------------------- keys

  /** The string hashed for a key: the prefix, a slash and the value's JSON. */
  function HashInput(prefix: string, json: Bytes): Bytes
  {
    prefix + "/" + json
  }

  /** `Key`: the 32-character lowercase hex MD5 of the prefix, a slash and the
      value's JSON, or the empty key and the marshalling error. */
  function Key<V>(md5: Bytes -> Digest, prefix: string, value: V, marshal: Marshal<V>): (r: Ret<string>)
    ensures marshal(value).Err? ==> r == Ret("", Some(marshal(value).error))
    ensures marshal(value).Ok? ==>
      && r.err.None? && |r.value| == 32
      && (forall i :: 0 <= i < |r.value| ==> IsHexDigit(r.value[i]))
      && Unhex(r.value) == Some(md5(HashInput(prefix, marshal(value).value)))
  {
    match marshal(value)
    case Err(e) => Ret("", Some(e))
    case Ok(json) =>
      UnhexHex(md5(HashInput(prefix, json)));
      Ret(Hex(md5(HashInput(prefix, json))), None)
  }

  /** Two values get the same key exactly when MD5 agrees on their hash inputs. */
  lemma KeysAgreeIffDigestsAgree<V, W>(md5: Bytes -> Digest, p1: string, v1: V, m1: Marshal<V>, p2: string, v2: W, m2: Marshal<W>)
    requires m1(v1).Ok? && m2(v2).Ok?
    ensures Key(md5, p1, v1, m1) == Key(md5, p2, v2, m2) <==>
            md5(HashInput(p1, m1(v1).value)) == md5(HashInput(p2, m2(v2).value))
  {
    HexInjective(md5(HashInput(p1, m1(v1).value)), md5(HashInput(p2, m2(v2).value)));
  }

  /** With slash-free prefixes the hash input determines both the prefix and
      the JSON: distinct prefixes or distinct JSON texts never share an input. */
  lemma {:induction false} HashInputInjective(p1: string, j1: Bytes, p2: string, j2: Bytes)
    requires '/' !in p1 && '/' !in p2
    ensures HashInput(p1, j1) == HashInput(p2, j2) ==> p1 == p2 && j1 == j2
  {
    if HashInput(p1, j1) == HashInput(p2, j2) {
      var s := HashInput(p1, j1);
      assert s[|p1|] == '/' && s[|p2|] == '/';
      assert s[..|p1|] == p1;
      assert s[..|p2|] == p2;
      assert s[|p1| + 1..] == j1;
      assert s[|p2| + 1..] == j2;
    }
  }

  // ---------------------------------------------------------------- client

  /** The Redis server as the client sees it: the stored values and, per
      command, the error the connection fails with, if it does. */
  datatype Client = Client(store: map<string, Bytes>, getFault: Option<Error>, setFault: Option<Error>, delFault: Option<Error>)

  /** `Get`: the stored bytes; nil and no error when the key is absent
      (`redis.Nil`); nil and the error when the command fails. */
  function Get(c: Client, key: string): (r: Ret<Option<Bytes>>)
    ensures c.getFault.Some? ==> r == Ret(None, c.getFault)
    ensures c.getFault.None? ==> r.err.None? && (r.value.Some? <==> key in c.store)
    ensures c.getFault.None? && key in c.store ==> r.value == Some(c.store[key])
  {
    if c.getFault.Some? then Ret(None, c.getFault)
    else if key !in c.store then Ret(None, None)
    else Ret(Some(c.store[key]), None)
  }

  /** `Set`: marshals the value and stores it under `key`. A marshalling error
      or a failing SET is returned and nothing is written; otherwise only
      `key` changes. */
  function Set<V>(c: Client, key: string, value: V, marshal: Marshal<V>): (r: (Client, Option<Error>))
    ensures marshal(value).Err? ==> r == (c, Some(marshal(value).error))
    ensures marshal(value).Ok? && c.setFault.Some? ==> r == (c, c.setFault)
    ensures marshal(value).Ok? && c.setFault.None? ==>
      r.1.None? && r.0 == c.(store := c.store[key := marshal(value).value])
  {
    match marshal(value)
    case Err(e) => (c, Some(e))
    case Ok(bytes) =>
      if c.setFault.Some? then (c, c.setFault)
      else (c.(store := c.store[key := bytes]), None)
  }

  /** `Delete`: DEL of the key; deleting an absent key succeeds. */
  function Delete(c: Client, key: string): (r: (Client, Option<Error>))
    ensures c.delFault.Some? ==> r == (c, c.delFault)
    ensures c.delFault.None? ==>
      && r.1.None? && key !in r.0.store && r.0 == c.(store := r.0.store)
      && (forall k :: k != key ==> (k in r.0.store <==> k in c.store) && (k in c.store ==> r.0.store[k] == c.store[k]))
  {
    if c.delFault.Some? then (c, c.delFault)
    else (c.(store := c.store - {key}), None)
  }

  /** A value set successfully reads back as its JSON; other keys read as before. */
  lemma GetAfterSet<V>(c: Client, key: string, value: V, marshal: Marshal<V>, other: string)
    requires marshal(value).Ok? && c.setFault.None? && c.getFault.None?
    requires other != key
    ensures Get(Set(c, key, value, marshal).0, key) == Ret(Some(marshal(value).value), None)
    ensures Get(Set(c, key, value, marshal).0, other) == Get(c, other)
  {
  }

  /** A deleted key reads as a miss; other keys read as before. */
  lemma GetAfterDelete(c: Client, key: string, other: string)
    requires c.delFault.None? && c.getFault.None?
    requires other != key
    ensures Get(Delete(c, key).0, key) == Ret(None, None)
    ensures Get(Delete(c, key).0, other) == Get(c, other)
  {
  }
}
