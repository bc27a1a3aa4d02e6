/**
 * The process-wide table that interns the string ids of toolbar buttons
 * (chosen on the JavaScript side) as the small integer ids the native menu
 * API needs, and maps a selected menu item's integer id back to its string id.
 *
 * The Java class `Button` keeps this table in two static fields: a
 * `HashMap<String, Integer>` (which accepts a `null` key, hence the
 * `Option<string>` keys here) and an `AtomicInteger` counter.
 */
module IdRegistry {
  import opened Wrappers

  /** Largest and smallest value of a Java `int`. */
  const INT_MAX: int := 0x7fff_ffff
  const INT_MIN: int := -0x8000_0000

  /** Two's-complement wrap-around of an integer into the Java `int` range. */
  function Wrap32(x: int): (r: int)
    ensures INT_MIN <= r <= INT_MAX
    ensures INT_MIN <= x <= INT_MAX ==> r == x
    ensures (r - x) % 0x1_0000_0000 == 0
  {
    (x - INT_MIN) % 0x1_0000_0000 + INT_MIN
  }

  /** A snapshot of the registry: the string-id table and the id counter. */
  datatype State = State(ids: map<Option<string>, int>, counter: int)

  /** The registry as the process starts: an empty table, a counter at zero. */
  const Empty: State := State(map[], 0)

  /** Every stored integer id lies in 1..counter. */
  ghost predicate Bounded(st: State) {
    forall k :: k in st.ids ==> 1 <= st.ids[k] <= st.counter
  }

  /** Distinct string ids carry distinct integer ids. */
  ghost predicate Injective(m: map<Option<string>, int>) {
    forall k1, k2 :: k1 in m && k2 in m && m[k1] == m[k2] ==> k1 == k2
  }

  /** The registry invariant: the counter is a non-negative Java int that bounds every stored id, and the table is injective. */
  ghost predicate ValidState(st: State) {
    0 <= st.counter <= INT_MAX && Bounded(st) && Injective(st.ids)
  }

  /** Some string id in table `m` is stored under integer id `v`. */
  ghost predicate Taken(m: map<Option<string>, int>, v: int) {
    exists k :: k in m && m[k] == v
  }

  /** No integer id in 1..counter was skipped: each one belongs to some string id. */
  ghost predicate Dense(st: State) {
    forall v :: 1 <= v <= st.counter ==> Taken(st.ids, v)
  }

  /** The outcome of interning one string id: the new registry and the integer id handed out. */
  datatype Assigned = Assigned(state: State, itemId: int)

  /**
   * Insert-if-absent: a known string id keeps its integer id; an unseen one
   * takes the next value of the (32-bit) counter, which is also recorded.
   */
  function Assign(st: State, id: Option<string>): (r: Assigned)
    ensures id in r.state.ids && r.state.ids[id] == r.itemId
    ensures r.state.ids.Keys == st.ids.Keys + {id}
    ensures forall k :: k in st.ids ==> r.state.ids[k] == st.ids[k]
    ensures id in st.ids ==> r.state == st
    ensures id !in st.ids ==> r.state.counter == Wrap32(st.counter + 1) == r.itemId
  {
    if id in st.ids then
      Assigned(st, st.ids[id])
    else
      var n := Wrap32(st.counter + 1);
      Assigned(State(st.ids[id := n], n), n)
  }

  /**
   * `r` is a correct answer to the reverse lookup of integer id `v` in table `m`:
   * a string id stored under `v` when there is one, and `None` (Java `null`) otherwise.
   */
  ghost predicate Answers(m: map<Option<string>, int>, v: int, r: Option<string>) {
    if Taken(m, v) then r in m && m[r] == v else r == None
  }

  /** Under injectivity the reverse lookup has exactly one correct answer. */
  lemma AnswerUnique(m: map<Option<string>, int>, v: int, r: Option<string>, k: Option<string>)
    requires Injective(m) && Answers(m, v, r)
    requires k in m && m[k] == v
    ensures r == k
  {
  }

  /** Assigning an id keeps the registry invariant, as long as the counter has room left. */
  lemma AssignPreservesValid(st: State, id: Option<string>)
    requires ValidState(st)
    requires id in st.ids || st.counter < INT_MAX
    ensures ValidState(Assign(st, id).state)
  {
  }

  /** Assigning an id never leaves a gap below the counter. */
  lemma AssignPreservesDense(st: State, id: Option<string>)
    requires ValidState(st) && Dense(st)
    requires id in st.ids || st.counter < INT_MAX
    ensures Dense(Assign(st, id).state)
  {
    var st' := Assign(st, id).state;
    forall v | 1 <= v <= st'.counter
      ensures Taken(st'.ids, v)
    {
      assert 1 <= v <= st.counter ==> Taken(st.ids, v);
      if v <= st.counter {
        var k :| k in st.ids && st.ids[k] == v;
        assert k in st'.ids && st'.ids[k] == v;
      } else {
        assert st'.ids[id] == v;
      }
    }
  }

  /** Interning the same string id twice returns the same integer id and changes nothing the second time. */
  lemma AssignIdempotent(st: State, id: Option<string>)
    ensures Assign(Assign(st, id).state, id) == Assign(st, id)
  {
  }

  /** Once assigned, an integer id stays with its string id, whatever is interned afterwards. */
  lemma AssignStable(st: State, id: Option<string>, other: Option<string>)
    requires id in st.ids
    ensures id in Assign(st, other).state.ids
    ensures Assign(st, other).state.ids[id] == st.ids[id]
  {
  }

  /** Forward then reverse lookup: the reverse lookup of a freshly interned integer id yields the string id that was interned. */
  lemma RoundTrip(st: State, id: Option<string>, r: Option<string>)
    requires ValidState(st)
    requires Answers(Assign(st, id).state.ids, Assign(st, id).itemId, r)
    ensures r == id
  {
  }

  /** The reverse lookup of a value no string id holds (0, a negative, or beyond the counter) is `None`. */
  lemma UnassignedAnswersNone(st: State, v: int, r: Option<string>)
    requires ValidState(st)
    requires v < 1 || v > st.counter
    requires Answers(st.ids, v, r)
    ensures r == None
  {
  }

  /**
   * The only way out of the invariant: at the largest Java int the counter
   * wraps, and the next unseen string id receives `INT_MIN`.
   */
  lemma AssignWrapsAtIntMax(st: State, id: Option<string>)
    requires st.counter == INT_MAX && id !in st.ids
    ensures Assign(st, id).itemId == INT_MIN
    ensures !Bounded(Assign(st, id).state)
  {
  }

  /** Intern a sequence of string ids in order, collecting the integer ids handed out. */
  function AssignAll(st: State, ids: seq<Option<string>>): (r: (State, seq<int>))
    ensures |r.1| == |ids|
    decreases |ids|
  {
    if ids == [] then (st, [])
    else
      var a := Assign(st, ids[0]);
      var rest := AssignAll(a.state, ids[1..]);
      (rest.0, [a.itemId] + rest.1)
  }

  /** The distinct string ids of `ids` that table `st` does not hold yet: those that will move the counter. */
  function NewIds(st: State, ids: seq<Option<string>>): set<Option<string>> {
    set i | 0 <= i < |ids| && ids[i] !in st.ids :: ids[i]
  }

  /** A subset is no larger than its superset. */
  lemma SubsetCard<T>(a: set<T>, b: set<T>)
    requires a <= b
    ensures |a| <= |b|
  {
    assert b == a + (b - a);
    assert a * (b - a) == {};
  }

  /** Every id still new after interning `ids[0]` was new before, and is not `ids[0]`. */
  lemma NewIdsAfterFirst(st: State, ids: seq<Option<string>>)
    requires ids != []
    ensures NewIds(Assign(st, ids[0]).state, ids[1..]) <= NewIds(st, ids) - {ids[0]}
  {
    var st' := Assign(st, ids[0]).state;
    forall k | k in NewIds(st', ids[1..])
      ensures k in NewIds(st, ids) - {ids[0]}
    {
      var i :| 0 <= i < |ids[1..]| && ids[1..][i] !in st'.ids && ids[1..][i] == k;
      assert ids[i + 1] == k;
    }
  }

  /** Interning the first id uses up one unit of room exactly when that id is new. */
  lemma NewIdsShrink(st: State, ids: seq<Option<string>>)
    requires ids != []
    ensures ids[0] !in st.ids ==> ids[0] in NewIds(st, ids)
    ensures |NewIds(Assign(st, ids[0]).state, ids[1..])| + (if ids[0] in st.ids then 0 else 1) <= |NewIds(st, ids)|
  {
    var before := NewIds(st, ids);
    NewIdsAfterFirst(st, ids);
    SubsetCard(NewIds(Assign(st, ids[0]).state, ids[1..]), before - {ids[0]});
    if ids[0] !in st.ids {
      assert ids[0] in before;
      assert |before - {ids[0]}| == |before| - 1;
    }
  }

  /**
   * Interning a whole sequence (with no more distinct new ids than the
   * counter has room for; repeats and known ids do not count) keeps the invariant, no gaps appear, earlier entries keep their
   * values, and each integer handed out is the one finally stored for its id.
   */
  lemma {:induction false} AssignAllSound(st: State, ids: seq<Option<string>>)
    requires ValidState(st) && Dense(st)
    requires st.counter + |NewIds(st, ids)| <= INT_MAX
    ensures ValidState(AssignAll(st, ids).0) && Dense(AssignAll(st, ids).0)
    ensures forall k :: k in st.ids ==> k in AssignAll(st, ids).0.ids && AssignAll(st, ids).0.ids[k] == st.ids[k]
    ensures forall i :: 0 <= i < |ids| ==> ids[i] in AssignAll(st, ids).0.ids && AssignAll(st, ids).0.ids[ids[i]] == AssignAll(st, ids).1[i]
    decreases |ids|
  {
    if ids != [] {
      var a := Assign(st, ids[0]);
      NewIdsShrink(st, ids);
      AssignPreservesValid(st, ids[0]);
      AssignPreservesDense(st, ids[0]);
      AssignAllSound(a.state, ids[1..]);
      var fin := AssignAll(st, ids);
      assert fin.0 == AssignAll(a.state, ids[1..]).0;
      forall i | 0 <= i < |ids|
        ensures ids[i] in fin.0.ids && fin.0.ids[ids[i]] == fin.1[i]
      {
        if i > 0 {
          assert ids[i] == ids[1..][i - 1];
        }
      }
    }
  }

  /**
   * The interner's contract over a process lifetime starting from the empty
   * registry: two positions receive the same integer id exactly when they
   * carry the same string id.
   */
  lemma InternIsInjective(ids: seq<Option<string>>, i: int, j: int)
    requires |NewIds(Empty, ids)| <= INT_MAX
    requires 0 <= i < |ids| && 0 <= j < |ids|
    ensures AssignAll(Empty, ids).1[i] == AssignAll(Empty, ids).1[j] <==> ids[i] == ids[j]
  {
    AssignAllSound(Empty, ids);
  }

  /**
   * The registry object. Its two fields are the static `sStringToNumericId`
   * table and the `sAtomicIdGenerator` counter of the Java class.
   */
  class Registry {
    var ids: map<Option<string>, int>
    var counter: int

    /** The value this object currently holds. */
    function Snapshot(): State
      reads this
    {
      State(ids, counter)
    }

    ghost predicate Valid()
      reads this
    {
      ValidState(Snapshot()) && Dense(Snapshot())
    }

    /** A fresh registry: empty table, counter at zero. */
    constructor ()
      ensures Snapshot() == Empty
      ensures Valid()
    {
      ids := map[];
      counter := 0;
    }

    /**
     * Returns the integer id of string id `id`, assigning the next counter
     * value and recording it when `id` has none yet.
     */
    method GetItemId(id: Option<string>) returns (itemId: int)
      modifies this
      ensures Snapshot() == Assign(old(Snapshot()), id).state
      ensures itemId == Assign(old(Snapshot()), id).itemId
      ensures id in old(ids) ==> itemId == old(ids)[id] && ids == old(ids) && counter == old(counter)
      ensures id !in old(ids) ==> counter == Wrap32(old(counter) + 1) && itemId == counter && ids == old(ids)[id := itemId]
      ensures old(Valid()) && (id in old(ids) || old(counter) < INT_MAX) ==> Valid()
    {
      if id in ids {
        return ids[id];
      }
      ghost var before := Snapshot();
      counter := Wrap32(counter + 1);
      itemId := counter;
      ids := ids[id := itemId];
      if ValidState(before) && Dense(before) && before.counter < INT_MAX {
        AssignPreservesValid(before, id);
        AssignPreservesDense(before, id);
      }
    }

    /**
     * Scans the table, in no particular order, for a string id stored under
     * `itemId`; `None` when there is none.
     */
    method GetButtonEventId(itemId: int) returns (eventId: Option<string>)
      ensures Answers(ids, itemId, eventId)
      ensures Valid() ==> forall k :: k in ids && ids[k] == itemId ==> eventId == k
    {
      var unseen := ids.Keys;
      while unseen != {}
        invariant unseen <= ids.Keys
        invariant forall k :: k in ids && k !in unseen ==> ids[k] != itemId
        decreases unseen
      {
        var k :| k in unseen;
        if ids[k] == itemId {
          return k;
        }
        unseen := unseen - {k};
      }
      return None;
    }
  }
}
