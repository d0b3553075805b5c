/**
 * The borrow-safe cache and counters of the RefCell example: a cache that
 * is processed from a snapshot while new items are appended to it, a
 * counter updated in one borrow, and a `Cell` counter.
 */
module RefCellCache {
  import opened Wrappers

  /** `s` starts with `p`. */
  predicate StartsWith(s: string, p: string)
  {
    |p| <= |s| && s[..|p|] == p
  }

  /** `str::contains`: `sub` occurs somewhere in `s`. */
  predicate Contains(s: string, sub: string)
    decreases |s|
  {
    StartsWith(s, sub) || (|s| > 0 && Contains(s[1..], sub))
  }

  /** `sub` occurs in `s` at position `i`. */
  predicate OccursAt(s: string, sub: string, i: int)
  {
    0 <= i <= |s| - |sub| && s[i..i + |sub|] == sub
  }

  /** `Contains` holds exactly when `sub` occurs at some position of `s`. */
  lemma {:induction false} ContainsIsOccurrence(s: string, sub: string)
    ensures Contains(s, sub) <==> exists i :: OccursAt(s, sub, i)
    decreases |s|
  {
    if StartsWith(s, sub) {
      assert OccursAt(s, sub, 0);
    } else if |s| == 0 {
    } else {
      ContainsIsOccurrence(s[1..], sub);
      if Contains(s[1..], sub) {
        var i :| OccursAt(s[1..], sub, i);
        assert s[1..][i..i + |sub|] == s[i + 1..i + 1 + |sub|];
        assert OccursAt(s, sub, i + 1);
      }
      if exists i :: OccursAt(s, sub, i) {
        var i :| OccursAt(s, sub, i);
        if i > 0 {
          assert s[1..][i - 1..i - 1 + |sub|] == s[i..i + |sub|];
          assert OccursAt(s[1..], sub, i - 1);
        }
      }
    }
  }

  /** A string shorter than `sub` does not contain it. */
  lemma {:induction false} ShortDoesNotContain(s: string, sub: string)
    requires |s| < |sub|
    ensures !Contains(s, sub)
    decreases |s|
  {
    if |s| > 0 {
      ShortDoesNotContain(s[1..], sub);
    }
  }

  /** What processing one item adds: `derived-<item>` for special items. */
  function DerivedFrom(item: string): seq<string>
  {
    if Contains(item, "special") then ["derived-" + item] else []
  }

  /**
   * The items one pass of `process_items_correct` appends for the snapshot
   * `items`, in snapshot order.
   */
  function Derived(items: seq<string>): (r: seq<string>)
    ensures |r| <= |items|
  {
    if items == [] then []
    else Derived(items[..|items| - 1]) + DerivedFrom(items[|items| - 1])
  }

  /**
   * The derived items are exactly `derived-<x>` for the special items `x`
   * of the snapshot.
   */
  lemma {:induction false} DerivedMembers(items: seq<string>)
    ensures forall y :: y in Derived(items) ==> exists x :: x in items && Contains(x, "special") && y == "derived-" + x
    ensures forall x :: x in items && Contains(x, "special") ==> "derived-" + x in Derived(items)
  {
    if items != [] {
      var front := items[..|items| - 1];
      var last := items[|items| - 1];
      DerivedMembers(front);
      assert items == front + [last];
      assert forall x :: x in front ==> x in items;
      forall x | x in items && Contains(x, "special") ensures "derived-" + x in Derived(items) {
        if x != last {
          assert x in front;
        }
      }
    }
  }

  /** Processing one more item of the snapshot adds what that item derives. */
  lemma DerivedExtends(s: seq<string>, i: nat)
    requires i < |s|
    ensures Derived(s[..i + 1]) == Derived(s[..i]) + DerivedFrom(s[i])
  {
    assert s[..i + 1][..i] == s[..i];
  }

  /** The `CACHE` vector. */
  class Cache {
    var items: seq<string>

    /** An empty cache. */
    constructor()
      ensures items == []
    {
      items := [];
    }

    /** `add_to_cache`: appends exactly `item` at the end. */
    method AddToCache(item: string)
      modifies this
      ensures items == old(items) + [item]
    {
      items := items + [item];
    }

    /**
     * `process_items_correct`: iterate over a snapshot of the cache and add
     * `derived-<item>` for every special item. The original items keep
     * their order, and the items added during the pass are not processed.
     */
    method ProcessItemsCorrect()
      modifies this
      ensures items == old(items) + Derived(old(items))
    {
      var snapshot := items;
      for i := 0 to |snapshot|
        invariant items == snapshot + Derived(snapshot[..i])
      {
        DerivedExtends(snapshot, i);
        if Contains(snapshot[i], "special") {
          AddToCache("derived-" + snapshot[i]);
        }
      }
      assert snapshot[..|snapshot|] == snapshot;
    }
  }

  /** `test_clone_and_release`: processing adds the one derived item. */
  method CloneAndReleaseTest() returns (items: seq<string>)
    ensures items == ["test", "special-item", "derived-special-item"]
    ensures exists s :: s in items && Contains(s, "derived")
  {
    var cache := new Cache();
    cache.AddToCache("test");
    cache.AddToCache("special-item");
    assert cache.items == ["test", "special-item"];
    TestDerived();
    cache.ProcessItemsCorrect();
    items := cache.items;
    assert items[2] in items;
  }

  /** Which of the test's two items is special, and that the result mentions "derived". */
  lemma TestDerived()
    ensures Derived(["test", "special-item"]) == ["derived-special-item"]
    ensures Contains("derived-special-item", "derived")
  {
    ShortDoesNotContain("test", "special");
    assert StartsWith("special-item", "special");
    assert ["test"][..0] == [];
    assert Derived(["test"]) == [];
    assert ["test", "special-item"][..1] == ["test"];
    assert "derived-" + "special-item" == "derived-special-item";
    assert StartsWith("derived-special-item", "derived");
  }

  /** Which of `main`'s three items is special. */
  lemma DemoDerived()
    ensures Derived(["apple", "special-banana", "cherry"]) == ["derived-special-banana"]
  {
    ShortDoesNotContain("apple", "special");
    ShortDoesNotContain("cherry", "special");
    assert StartsWith("special-banana", "special");
    assert "derived-" + "special-banana" == "derived-special-banana";
    assert ["apple"][..0] == [];
    assert Derived(["apple"]) == [];
    assert ["apple", "special-banana"][..1] == ["apple"];
    assert Derived(["apple", "special-banana"]) == ["derived-special-banana"];
    assert ["apple", "special-banana", "cherry"][..2] == ["apple", "special-banana"];
  }

  /** `main`'s cache part: only the special banana yields a derived item. */
  method CacheDemo() returns (items: seq<string>)
    ensures items == ["apple", "special-banana", "cherry", "derived-special-banana"]
  {
    var cache := new Cache();
    cache.AddToCache("apple");
    cache.AddToCache("special-banana");
    cache.AddToCache("cherry");
    assert cache.items == ["apple", "special-banana", "cherry"];
    DemoDerived();
    cache.ProcessItemsCorrect();
    items := cache.items;
  }

  /** The `COUNTER` cell, an `i32`. */
  class Counter {
    var value: i32

    /** `COUNTER.with(|c| *c.borrow_mut() = 0)`. */
    constructor()
      ensures value == 0
    {
      value := 0;
    }

    /** `update_and_log_correct`: one increment; `i32::MAX` would overflow. */
    method UpdateAndLogCorrect()
      requires value < I32_MAX
      modifies this
      ensures value == old(value) + 1
    {
      value := value + 1;
    }
  }

  /** `SimpleCounter`, a `Cell<i32>`. */
  class SimpleCounter {
    var value: i32

    /** `SimpleCounter::new`: starts at 0. */
    constructor()
      ensures value == 0
    {
      value := 0;
    }

    /** `increment`: adds 1; `i32::MAX` would overflow. */
    method Increment()
      requires value < I32_MAX
      modifies this
      ensures value == old(value) + 1
    {
      value := value + 1;
    }

    /** `get`: reads the value without changing it. */
    function Get(): (v: i32)
      reads this
      ensures v == value
    {
      value
    }

    /** `update_and_log`: increment, then read the new value. */
    method UpdateAndLog() returns (logged: i32)
      requires value < I32_MAX
      modifies this
      ensures value == old(value) + 1 && logged == value
    {
      Increment();
      logged := Get();
    }
  }

  /** `test_single_borrow` and `main`: one update gives 1, two give 2. */
  method SingleBorrowTest() returns (afterOne: i32, afterTwo: i32)
    ensures afterOne == 1 && afterTwo == 2
  {
    var counter := new Counter();
    counter.UpdateAndLogCorrect();
    afterOne := counter.value;
    counter.UpdateAndLogCorrect();
    afterTwo := counter.value;
  }

  /** `test_cell_counter`: two increments and one `update_and_log` give 3. */
  method CellCounterTest() returns (start: i32, result: i32)
    ensures start == 0 && result == 3
  {
    var counter := new SimpleCounter();
    start := counter.Get();
    counter.Increment();
    counter.Increment();
    var _ := counter.UpdateAndLog();
    result := counter.Get();
  }

  /** `test_cell_no_panic_on_nested_calls`: ten rounds of two increments give 20. */
  method NestedCallsTest() returns (result: i32)
    ensures result == 20
  {
    var counter := new SimpleCounter();
    for round := 0 to 10
      invariant counter.value == 2 * round
    {
      counter.Increment();
      var _ := counter.Get();
      var _ := counter.UpdateAndLog();
    }
    result := counter.Get();
  }
}
