/** Small vocabulary shared by every component: optional values, map lookup, sequences as sets. */
module Collections {

  datatype Option<+T> = None | Some(value: T)

  function Get<K, V>(m: map<K, V>, k: K): Option<V> {
    if k in m then Some(m[k]) else None
  }

  ghost predicate NoDup<T>(s: seq<T>) {
    forall i, j | 0 <= i < j < |s| :: s[i] != s[j]
  }

  function SeqSet<T>(s: seq<T>): set<T> {
    set x | x in s
  }

  lemma QueueSet<T>(a: seq<T>, b: seq<T>)
    ensures SeqSet(a + b) == SeqSet(a) + SeqSet(b)
  {
  }

  /** The members of a set, listed in some order. */
  method ListSet<T(==)>(s: set<T>) returns (list: seq<T>)
    ensures SeqSet(list) == s
  {
    list := [];
    var todo := s;
    while todo != {}
      invariant SeqSet(list) + todo == s
      decreases todo
    {
      var x :| x in todo;
      todo := todo - {x};
      list := list + [x];
    }
  }
}
