// The two ways the C++ loaders store a record in a std::unordered_map keyed
// by an int: emplace, which keeps a key already present, and subscript
// assignment, which overwrites it.

module UnorderedMap {

  /** `unordered_map::emplace`: a key already present keeps its value. */
  function Emplace<V>(m: map<int, V>, key: int, value: V): (r: map<int, V>)
    ensures key in r && r[key] == (if key in m then m[key] else value)
    ensures r.Keys == m.Keys + {key}
    ensures forall k :: k in m ==> k in r && r[k] == m[k]
  {
    if key in m then m else m[key := value]
  }
}
