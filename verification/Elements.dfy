/** The elements of a hash table, and the application-order list through them. */
module Elements {
  class Elem<V> {
    const key: string
    const value: V
    var hashv: nat
    var prev: Elem?<V>
    var next: Elem?<V>
    var hhPrev: Elem?<V>
    var hhNext: Elem?<V>

    constructor (key: string, value: V)
      ensures this.key == key && this.value == value
    {
      this.key, this.value, this.hashv := key, value, 0;
      prev, next, hhPrev, hhNext := null, null, null, null;
    }
  }

  ghost predicate Distinct<T>(s: seq<T>) {
    forall i, j :: 0 <= i < j < |s| ==> s[i] != s[j]
  }

  /** `prev` and `next` run through `s` in order. */
  ghost predicate AppLinked<V>(s: seq<Elem<V>>)
    reads s`prev, s`next
  {
    && (forall i {:trigger s[i].prev} :: 0 <= i < |s| ==> s[i].prev == if i == 0 then null else s[i-1])
    && (forall i {:trigger s[i].next} :: 0 <= i < |s| ==> s[i].next == if i == |s|-1 then null else s[i+1])
  }

  /** The relinking of HASH_DELETE. */
  method UnlinkApp<V>(e: Elem<V>, ghost s: seq<Elem<V>>, ghost k: nat)
    requires k < |s| && Distinct(s) && s[k] == e && AppLinked(s)
    modifies s`prev, s`next
    ensures AppLinked(s[..k] + s[k+1..])
  {
    if e.prev != null { e.prev.next := e.next; }
    if e.next != null { e.next.prev := e.prev; }
  }
}
