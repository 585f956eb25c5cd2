/** Facts about finite sets that the loops over table keys rely on. */
module Sets {
  /** A set of ids other than the empty one has a member to pick. */
  lemma HasMember(s: set<int>)
    requires s != {}
    ensures exists x :: x in s
  {
    if forall x :: x !in s {
      assert false;
    }
  }
}
