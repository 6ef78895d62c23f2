/** What several modules share. */
module Common {

  /** One more than the greatest unsigned word of the machine. */
  const WORD: nat := 0x1_0000_0000

  datatype Option<T> = None | Some(value: T)

  lemma FewerElements(s: set<nat>, t: set<nat>)
    requires s <= t
    ensures |s| <= |t|
  {
    assert t == s + (t - s);
  }
}
