/** The shared key-value store (Redis) that the revocation list and the
    refresh-token ledger live in: the commands the service issues, as pure
    functions over the store's contents and one clock in milliseconds, and the
    store object whose contents those commands replace. A key whose expiry time
    has been reached reads as absent to every command. */
module KvStore {
  import opened Common

  datatype Value = Str(s: string) | Hash(fields: map<string, string>)

  /** A stored value and, when a time to live was set, its absolute expiry in ms. */
  datatype Entry = Entry(value: Value, expiresAt: Option<int>)

  type Data = map<string, Entry>

  /** A reply of a read command: the value, or the WRONGTYPE error Redis gives
      when a string command meets a hash or the other way round. */
  datatype Reply<T> = Ok(v: T) | WrongType

  predicate Live(data: Data, key: string, now: int) {
    key in data && (data[key].expiresAt.None? || now < data[key].expiresAt.value)
  }

  /** `SET key v EX seconds`. */
  function SetEx(data: Data, key: string, v: string, seconds: int, now: int): Data {
    data[key := Entry(Str(v), Some(now + seconds * 1000))]
  }

  /** `GET key`: nil for an absent or expired key. */
  function Get(data: Data, key: string, now: int): Reply<Option<string>> {
    if !Live(data, key, now) then Ok(None)
    else match data[key].value
      case Str(s) => Ok(Some(s))
      case Hash(_) => WrongType
  }

  /** `HSET key field value ...`: merges into a live hash (keeping its expiry)
      or starts a new hash without expiry; None is the WRONGTYPE error. */
  function HSet(data: Data, key: string, fields: map<string, string>, now: int): Option<Data> {
    if !Live(data, key, now) then Some(data[key := Entry(Hash(fields), None)])
    else match data[key].value
      case Hash(existing) => Some(data[key := Entry(Hash(existing + fields), data[key].expiresAt)])
      case Str(_) => None
  }

  /** `EXPIRE key seconds`: only a live key gets the new expiry. */
  function Expire(data: Data, key: string, seconds: int, now: int): Data {
    if Live(data, key, now) then data[key := Entry(data[key].value, Some(now + seconds * 1000))]
    else data
  }

  /** `HGETALL key`: the empty object for an absent or expired key. */
  function HGetAll(data: Data, key: string, now: int): Reply<map<string, string>> {
    if !Live(data, key, now) then Ok(map[])
    else match data[key].value
      case Hash(fields) => Ok(fields)
      case Str(_) => WrongType
  }

  /** `DEL key`. */
  function Del(data: Data, key: string): Data {
    data - {key}
  }

  /** The store connection: its contents are replaced command by command. */
  class RedisStore {
    var data: Data

    constructor ()
      ensures data == map[]
    {
      data := map[];
    }
  }
}
