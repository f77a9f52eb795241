/** Values shared by every component: columns and a transaction's private writes. */
module Basics {

  /** A nullable column. */
  datatype Option<+T> = None | Some(value: T) {
    function GetOr(default: T): T {
      match this
      case Some(v) => v
      case None => default
    }
  }

  /**
   * What a `VARCHAR(n)` column is given for a text: spaces beyond `n` characters are cut off. A text that
   * is too long otherwise stays too long, and is refused.
   */
  function Varchar(s: string, n: nat): string {
    if n < |s| && FitsVarchar(s, n) then s[..n] else s
  }

  /** Nothing but spaces beyond the column's width. */
  predicate FitsVarchar(s: string, n: nat) {
    forall i :: n <= i < |s| ==> s[i] == ' '
  }

  /** Rows a transaction has written but not committed; `None` is a deleted row. */
  type Writes<K, V> = map<K, Option<V>>

  /** What a transaction sees at READ COMMITTED: the committed rows under its own writes. */
  function Overlay<K, V>(committed: map<K, V>, writes: Writes<K, V>): map<K, V> {
    map k | k in committed.Keys + writes.Keys && (k in writes ==> writes[k].Some?)
      :: if k in writes then writes[k].value else committed[k]
  }

  lemma OverlayWrite<K, V>(committed: map<K, V>, writes: Writes<K, V>, k: K, v: V)
    ensures Overlay(committed, writes[k := Some(v)]) == Overlay(committed, writes)[k := v]
  {
  }

  lemma OverlayDelete<K, V>(committed: map<K, V>, writes: Writes<K, V>, k: K)
    ensures Overlay(committed, writes[k := None]) == Overlay(committed, writes) - {k}
  {
  }
}
