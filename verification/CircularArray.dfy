/** The bounded array of src/circular-array.ts, which drops items at one end when the other end overflows. */
module CircularArrays {
  import opened Wrappers

  const DEFAULT_CIRCULAR_ARRAY_SIZE := 1024
  const MAX_SAFE_INTEGER := 0x1F_FFFF_FFFF_FFFF

  datatype SizeError = NotSafeInteger | Negative

  function CheckSize(size: int): Option<SizeError> {
    if size < -MAX_SAFE_INTEGER || size > MAX_SAFE_INTEGER then Some(NotSafeInteger)
    else if size < 0 then Some(Negative)
    else None
  }

  /** The last n items, or all when there are fewer. */
  function Last<T>(n: nat, s: seq<T>): seq<T> {
    if |s| <= n then s else s[|s| - n..]
  }

  /** The first n items, or all when there are fewer. */
  function First<T>(n: nat, s: seq<T>): seq<T> {
    if |s| <= n then s else s[..n]
  }

  // ---- Array.prototype.splice ----

  datatype Splicing<T> = Splicing(removed: seq<T>, left: seq<T>)

  function Clamp(low: int, x: int, high: int): (r: int)
    requires low <= high
    ensures low <= r <= high
  {
    if x < low then low else if x > high then high else x
  }

  /** A negative start counts from the end. */
  function SpliceStart(length: nat, start: int): (r: nat)
    ensures r <= length
  {
    if start < 0 then Clamp(0, length + start, length) else Clamp(0, start, length)
  }

  function ArraySplice<T>(s: seq<T>, start: int, deleteCount: int, items: seq<T>): (r: Splicing<T>)
    ensures |r.removed| + |r.left| == |s| + |items|
  {
    var at := SpliceStart(|s|, start);
    var count := Clamp(0, deleteCount, |s| - at);
    Splicing(s[at..at + count], s[..at] + items + s[at + count..])
  }

  /**
    Index by index: with a start and a count within the array, what was there before the start stays,
    the items come next, then what comes after the items taken out; and these are returned.
   */
  lemma SpliceAt<T>(s: seq<T>, start: nat, deleteCount: nat, items: seq<T>)
    requires start + deleteCount <= |s|
    ensures var r := ArraySplice(s, start, deleteCount, items);
      && |r.removed| == deleteCount && |r.left| == |s| - deleteCount + |items|
      && (forall i :: 0 <= i < deleteCount ==> r.removed[i] == s[start + i])
      && (forall i {:trigger r.left[i]} :: 0 <= i < |r.left| ==> (
            r.left[i] ==
              if i < start then s[i]
              else if i < start + |items| then items[i - start]
              else s[i - |items| + deleteCount]))
  {
  }

  /** All other calls come to one of those: a negative start counts from the end, and all is cut to fit. */
  lemma SpliceElsewhere<T>(s: seq<T>, start: int, deleteCount: int, items: seq<T>)
    ensures start >= |s| ==> ArraySplice(s, start, deleteCount, items) == Splicing([], s + items)
    ensures -|s| <= start < 0 ==>
      ArraySplice(s, start, deleteCount, items) == ArraySplice(s, |s| + start, deleteCount, items)
    ensures start < -|s| ==> ArraySplice(s, start, deleteCount, items) == ArraySplice(s, 0, deleteCount, items)
    ensures deleteCount < 0 ==> ArraySplice(s, start, deleteCount, items) == ArraySplice(s, start, 0, items)
    ensures 0 <= start <= |s| < start + deleteCount ==>
      ArraySplice(s, start, deleteCount, items) == ArraySplice(s, start, |s| - start, items)
  {
    assert s[..|s|] + items + s[|s|..] == s + items;
  }

  lemma SpliceFront<T>(s: seq<T>, n: nat)
    requires n <= |s|
    ensures ArraySplice(s, 0, n, []) == Splicing(s[..n], s[n..])
  {
  }

  /** Whatever the arguments, no item is lost or made up. */
  lemma SpliceConserves<T>(s: seq<T>, start: int, deleteCount: int, items: seq<T>)
    ensures var r := ArraySplice(s, start, deleteCount, items);
      multiset(r.removed) + multiset(r.left) == multiset(s) + multiset(items)
  {
    var at := SpliceStart(|s|, start);
    var count := Clamp(0, deleteCount, |s| - at);
    assert s == s[..at] + s[at..at + count] + s[at + count..];
  }

  /** The items that a splice with items leaves, and those it returns: overflow leaves at the front. */
  function SpliceWithin<T>(size: nat, s: seq<T>, start: int, deleteCount: int, items: seq<T>): (r: Splicing<T>)
    ensures |r.left| <= size
    ensures multiset(r.removed) + multiset(r.left) == multiset(s) + multiset(items)
  {
    var r := ArraySplice(s, start, deleteCount, items);
    SpliceConserves(s, start, deleteCount, items);
    var overflow := if |r.left| > size then |r.left| - size else 0;
    assert r.left == r.left[..overflow] + r.left[overflow..];
    Splicing(r.removed + r.left[..overflow], r.left[overflow..])
  }

  class CircularArray<T> {
    var items: seq<T>
    var size: nat

    ghost predicate Valid()
      reads this
    {
      |items| <= size
    }

    constructor (size: nat, items: seq<T>)
      requires CheckSize(size) == None
      ensures Valid() && this.size == size && this.items == Last(size, items)
    {
      this.size := size;
      this.items := [];
      new;
      if items != [] {
        var _ := Push(items);
      }
    }

    method Push(items: seq<T>) returns (length: nat)
      requires Valid()
      modifies this`items
      ensures Valid() && this.items == Last(size, old(this.items) + items) && length == |this.items|
    {
      this.items := this.items + items;
      if |this.items| > size {
        var spliced := ArraySplice(this.items, 0, |this.items| - size, []);
        this.items := spliced.left;
        assert this.items == (old(this.items) + items)[|old(this.items) + items| - size..];
      }
      length := |this.items|;
    }

    method Unshift(items: seq<T>) returns (length: nat)
      requires Valid()
      modifies this`items
      ensures Valid() && this.items == First(size, items + old(this.items)) && length == |this.items|
    {
      this.items := items + this.items;
      if |this.items| > size {
        var spliced := ArraySplice(this.items, size, |items|, []);
        this.items := spliced.left;
        assert this.items == (items + old(this.items))[..size];
      }
      length := |this.items|;
    }

    method Concat(items: seq<T>) returns (r: CircularArray<T>)
      requires Valid()
      ensures fresh(r) && r.Valid() && r.size == size && r.items == Last(size, this.items + items)
    {
      r := new CircularArray(0, []);
      r.items := this.items + items;
      r.size := size;
      if |r.items| > r.size {
        var spliced := ArraySplice(r.items, 0, |r.items| - r.size, []);
        r.items := spliced.left;
        assert r.items == (this.items + items)[|this.items + items| - size..];
      }
    }

    /**
      The three shapes of call are told apart by the number of arguments. With items to insert and a
      count, what no longer fits leaves at the front and is returned too. With a count left undefined
      nothing is deleted if no items follow; if items follow, they are ignored and all is deleted
      from start on.
     */
    method Splice(arguments: nat, start: int, deleteCount: Option<int>, items: seq<T>)
      returns (removed: CircularArray<T>)
      requires Valid() && |this.items| + |items| <= MAX_SAFE_INTEGER
      requires if items != [] then arguments == 2 + |items| else arguments == 2 || (arguments == 1 && deleteCount == None)
      modifies this`items
      ensures Valid() && fresh(removed) && removed.Valid() && removed.size == |removed.items|
      ensures Splicing(removed.items, this.items) ==
        if items != [] && deleteCount.Some? then SpliceWithin(size, old(this.items), start, deleteCount.value, items)
        else if items == [] && arguments == 2 then
          ArraySplice(old(this.items), start, if deleteCount.Some? then deleteCount.value else 0, [])
        else ArraySplice(old(this.items), start, |old(this.items)|, [])
    {
      hide ArraySplice;
      var itemsRemoved: seq<T>;
      if arguments >= 3 && deleteCount.Some? {
        var spliced := ArraySplice(this.items, start, deleteCount.value, items);
        this.items, itemsRemoved := spliced.left, spliced.removed;
        if |this.items| > size {
          SpliceFront(this.items, |this.items| - size);
          var overflowing := ArraySplice(this.items, 0, |this.items| - size, []);
          this.items, itemsRemoved := overflowing.left, itemsRemoved + overflowing.removed;
        }
      } else if arguments == 2 {
        var spliced := ArraySplice(this.items, start, if deleteCount.Some? then deleteCount.value else 0, []);
        this.items, itemsRemoved := spliced.left, spliced.removed;
      } else {
        var spliced := ArraySplice(this.items, start, |this.items|, []);
        this.items, itemsRemoved := spliced.left, spliced.removed;
      }
      removed := new CircularArray(|itemsRemoved|, itemsRemoved);
    }

    /** Shrinking pops as many items as the size goes down by, whether or not the array was full. */
    method Resize(size: int) returns (error: Option<SizeError>)
      requires Valid()
      modifies this
      ensures Valid() && error == CheckSize(size)
      ensures error.Some? ==> items == old(items) && this.size == old(this.size)
      ensures error == None ==> this.size == size && items == Resized(old(this.size), old(items), size)
      ensures error == None && 0 < size < old(this.size) ==>
        (items == First(size, old(items)) <==> old(Empty() || Full()))
    {
      error := CheckSize(size);
      if error.Some? {
        return;
      }
      if size == 0 {
        items := [];
      } else if size < this.size {
        for i := size to this.size
          invariant items == old(items)[..Clamp(0, |old(items)| - (i - size), |old(items)|)]
        {
          items := items[..if items == [] then 0 else |items| - 1];
        }
      }
      this.size := size;
    }

    predicate Empty()
      reads this
    {
      |items| == 0
    }

    predicate Full()
      reads this
    {
      |items| == size
    }
  }

  /** What new CircularArray(size, ...items) does: it throws on a bad size. */
  method Create<T>(size: int, items: seq<T>) returns (error: Option<SizeError>, created: CircularArray?<T>)
    ensures error == CheckSize(size)
    ensures error.Some? ==> created == null
    ensures error == None ==>
      && created != null && fresh(created) && created.Valid()
      && created.size == size && created.items == Last(size, items)
  {
    error := CheckSize(size);
    created := null;
    if error == None {
      created := new CircularArray(size, items);
    }
  }

  function Resized<T>(oldSize: nat, s: seq<T>, size: nat): seq<T> {
    if size == 0 then []
    else if size < oldSize then s[..Clamp(0, |s| - (oldSize - size), |s|)]
    else s
  }

  /** Shrinking keeps all that still fits exactly when it makes no difference that the array was not full. */
  lemma ResizeKeepsWhatFits<T>(oldSize: nat, s: seq<T>, size: nat)
    requires |s| <= oldSize
    ensures Resized(oldSize, s, size) == First(size, s) <==>
      size == 0 || size >= oldSize || |s| == oldSize || s == []
  {
  }

  // ---- Runs of pushes ----

  /** The items after one push for each batch. */
  function PushAll<T>(size: nat, s: seq<T>, batches: seq<seq<T>>): seq<T> {
    if batches == [] then s
    else Last(size, PushAll(size, s, batches[..|batches| - 1]) + batches[|batches| - 1])
  }

  function Flatten<T>(batches: seq<seq<T>>): seq<T> {
    if batches == [] then [] else Flatten(batches[..|batches| - 1]) + batches[|batches| - 1]
  }

  lemma LastOfLast<T>(n: nat, a: seq<T>, b: seq<T>)
    ensures Last(n, Last(n, a) + b) == Last(n, a + b)
  {
    if |a| > n {
      assert Last(n, a) + b == (a + b)[|a| - n..];
    }
  }

  /** However the values come in, the array holds the last `size` of them all. */
  lemma {:induction false} WindowOfPushes<T>(size: nat, s: seq<T>, batches: seq<seq<T>>)
    requires |s| <= size
    ensures PushAll(size, s, batches) == Last(size, s + Flatten(batches))
  {
    if batches == [] {
      assert s + [] == s;
    } else {
      var front, batch := batches[..|batches| - 1], batches[|batches| - 1];
      WindowOfPushes(size, s, front);
      LastOfLast(size, s + Flatten(front), batch);
      assert s + Flatten(front) + batch == s + (Flatten(front) + batch);
    }
  }
}
