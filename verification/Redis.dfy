/** The few Redis notions the protocols share: string cells with an absolute expiry. */
module Redis {
  datatype Option<+T> = None | Some(value: T)

  /** A cell written with `SET key value EX ttl`; it reads as missing from `expiresAt` on. */
  datatype Cell<+V> = Cell(value: V, expiresAt: int)

  /** `GET key` at Redis time `now`. */
  function Get<K, V>(cells: map<K, Cell<V>>, key: K, now: int): (r: Option<V>)
    ensures r.Some? <==> key in cells && now < cells[key].expiresAt
    ensures r.Some? ==> r.value == cells[key].value
  {
    if key in cells && now < cells[key].expiresAt then Some(cells[key].value) else None
  }

  function Max(a: int, b: int): (r: int)
    ensures r >= a && r >= b && (r == a || r == b)
  {
    if a < b then b else a
  }
}
