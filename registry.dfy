/** The ordered registry of managed windows, kept generic over the record
    type: the newer manager stores `Window(hwnd)` tuples (src/window.rs), the
    older one `{ hwnd, minimized }` records (src/wm.rs). `key` projects a
    record onto its window handle. */
module Registry {
  import opened Wrappers

  /** An opaque window handle (`HWND`, an `isize`); 0 is the null handle. */
  type Handle = int

  /** The `any!` macro: some record in `xs` has handle `h`. */
  function Any<T>(xs: seq<T>, key: T -> Handle, h: Handle): (r: bool)
    ensures r <==> exists i :: 0 <= i < |xs| && key(xs[i]) == h
  {
    if |xs| == 0 then false
    else if key(xs[0]) == h then true
    else
      var r := Any(xs[1..], key, h);
      assert r ==> exists i :: 0 <= i < |xs[1..]| && key(xs[1..][i]) == h;
      assert forall i :: 1 <= i < |xs| ==> xs[i] == xs[1..][i - 1];
      r
  }

  /** `iter().find(|w| key(w) == h).copied()`: the first record with handle `h`. */
  function Find<T>(xs: seq<T>, key: T -> Handle, h: Handle): (r: Option<T>)
    ensures r.None? <==> !Any(xs, key, h)
    ensures r.Some? ==> r.value in xs && key(r.value) == h
    ensures r.Some? ==> Position(xs, key, h).Some? && r.value == xs[Position(xs, key, h).value]
  {
    if |xs| == 0 then None
    else if key(xs[0]) == h then Some(xs[0])
    else Find(xs[1..], key, h)
  }

  /** `iter().position(|w| key(w) == h)`: the index of the first record with handle `h`. */
  function Position<T>(xs: seq<T>, key: T -> Handle, h: Handle): (r: Option<nat>)
    ensures r.None? <==> !Any(xs, key, h)
    ensures r.Some? ==> r.value < |xs| && key(xs[r.value]) == h
    ensures r.Some? ==> forall j :: 0 <= j < r.value ==> key(xs[j]) != h
  {
    if |xs| == 0 then None
    else if key(xs[0]) == h then Some(0)
    else
      match Position(xs[1..], key, h)
      case None => None
      case Some(i) => Some(i + 1)
  }

  /** `retain(|w| key(w) != h)`: drop every record with handle `h`, keep the rest in order. */
  function Retain<T>(xs: seq<T>, key: T -> Handle, h: Handle): (r: seq<T>)
    ensures |r| <= |xs|
  {
    if |xs| == 0 then []
    else if key(xs[0]) == h then Retain(xs[1..], key, h)
    else [xs[0]] + Retain(xs[1..], key, h)
  }

  /** Exactly the records whose handle is not `h` survive `Retain`. */
  lemma {:induction false} RetainMembers<T>(xs: seq<T>, key: T -> Handle, h: Handle)
    ensures forall x :: x in Retain(xs, key, h) ==> x in xs && key(x) != h
    ensures forall x :: x in xs && key(x) != h ==> x in Retain(xs, key, h)
  {
    if |xs| > 0 {
      RetainMembers(xs[1..], key, h);
      assert xs == [xs[0]] + xs[1..];
    }
  }

  /** `into_iter().filter(keep).collect()`: the records `keep` accepts, in order. */
  function Filter<T>(xs: seq<T>, keep: T -> bool): (r: seq<T>)
    ensures |r| <= |xs|
    ensures forall i :: 0 <= i < |r| ==> r[i] in xs && keep(r[i])
  {
    if |xs| == 0 then []
    else if keep(xs[0]) then [xs[0]] + Filter(xs[1..], keep)
    else Filter(xs[1..], keep)
  }

  /** Exactly the accepted records survive `Filter`. */
  lemma {:induction false} FilterMembers<T>(xs: seq<T>, keep: T -> bool)
    ensures forall x :: x in Filter(xs, keep) ==> x in xs && keep(x)
    ensures forall x :: x in xs && keep(x) ==> x in Filter(xs, keep)
  {
    if |xs| > 0 {
      FilterMembers(xs[1..], keep);
      assert xs == [xs[0]] + xs[1..];
    }
  }

  /** The body of `manage`: a record whose handle is already present leaves
      the registry as it is; otherwise the record is pushed at the end. */
  function Insert<T>(xs: seq<T>, key: T -> Handle, x: T): (r: seq<T>)
    ensures xs <= r && |r| <= |xs| + 1
    ensures Any(r, key, key(x))
  {
    if Any(xs, key, key(x)) then xs
    else
      var r := xs + [x];
      assert key(r[|xs|]) == key(x);
      r
  }

  /** The registry invariant: no handle is stored twice. */
  ghost predicate Unique<T>(xs: seq<T>, key: T -> Handle)
  {
    forall i, j :: 0 <= i < j < |xs| ==> key(xs[i]) != key(xs[j])
  }

  /** The handles of the records, in registry order. */
  function Keys<T>(xs: seq<T>, key: T -> Handle): (hs: seq<Handle>)
    ensures |hs| == |xs|
    ensures forall i :: 0 <= i < |xs| ==> hs[i] == key(xs[i])
  {
    seq(|xs|, i requires 0 <= i < |xs| => key(xs[i]))
  }

  /** `a` is `b` with some elements left out and the rest in their original order. */
  predicate Subsequence<T(==)>(a: seq<T>, b: seq<T>)
    decreases |b|
  {
    if |a| == 0 then true
    else if |b| == 0 then false
    else if a[0] == b[0] then Subsequence(a[1..], b[1..])
    else Subsequence(a, b[1..])
  }

  // ---------------------------------------------------------------------
  // manage: idempotent append

  lemma {:induction false} InsertProperties<T>(xs: seq<T>, key: T -> Handle, x: T)
    requires Unique(xs, key)
    ensures Unique(Insert(xs, key, x), key)
    ensures Any(Insert(xs, key, x), key, key(x))
    ensures xs <= Insert(xs, key, x)
    ensures |Insert(xs, key, x)| == if Any(xs, key, key(x)) then |xs| else |xs| + 1
    ensures Insert(Insert(xs, key, x), key, x) == Insert(xs, key, x)
  {
    var r := Insert(xs, key, x);
    if !Any(xs, key, key(x)) {
      assert r[|xs|] == x;
      forall i, j | 0 <= i < j < |r| ensures key(r[i]) != key(r[j]) {
        if j < |xs| {
          assert r[i] == xs[i] && r[j] == xs[j];
        } else {
          assert r[i] == xs[i] && r[j] == x;
        }
      }
    }
  }

  // ---------------------------------------------------------------------
  // unmanage: removal by handle

  lemma {:induction false} RetainAbsent<T>(xs: seq<T>, key: T -> Handle, h: Handle)
    requires !Any(xs, key, h)
    ensures Retain(xs, key, h) == xs
  {
    if |xs| > 0 {
      assert !Any(xs[1..], key, h) by {
        forall i | 0 <= i < |xs[1..]| ensures key(xs[1..][i]) != h {
          assert xs[1..][i] == xs[i + 1];
        }
      }
      RetainAbsent(xs[1..], key, h);
      assert xs == [xs[0]] + xs[1..];
    }
  }

  lemma UniqueTail<T>(xs: seq<T>, key: T -> Handle)
    requires |xs| > 0 && Unique(xs, key)
    ensures Unique(xs[1..], key)
    ensures !Any(xs[1..], key, key(xs[0]))
  {
    forall i | 0 <= i < |xs[1..]| ensures key(xs[1..][i]) != key(xs[0]) {
      assert xs[1..][i] == xs[i + 1];
    }
  }

  /** With unique handles, removing the handle at index `i` is exactly
      deleting position `i`: every other record keeps its relative order. */
  lemma {:induction false} RetainAt<T>(xs: seq<T>, key: T -> Handle, i: nat)
    requires Unique(xs, key) && i < |xs|
    ensures Retain(xs, key, key(xs[i])) == xs[..i] + xs[i + 1..]
  {
    var h := key(xs[i]);
    UniqueTail(xs, key);
    if i == 0 {
      assert Retain(xs, key, h) == Retain(xs[1..], key, h);
      RetainAbsent(xs[1..], key, h);
      assert xs[..0] + xs[1..] == xs[1..];
    } else {
      var tail := xs[1..];
      assert key(xs[0]) != h;
      assert Retain(xs, key, h) == [xs[0]] + Retain(tail, key, h);
      assert tail[i - 1] == xs[i];
      RetainAt(tail, key, i - 1);
      assert tail[..i - 1] == xs[1..i];
      assert tail[i..] == xs[i + 1..];
      assert [xs[0]] + xs[1..i] == xs[..i];
    }
  }

  lemma {:induction false} RetainUnique<T>(xs: seq<T>, key: T -> Handle, h: Handle)
    requires Unique(xs, key)
    ensures Unique(Retain(xs, key, h), key)
  {
    if |xs| > 0 {
      UniqueTail(xs, key);
      RetainUnique(xs[1..], key, h);
      RetainMembers(xs[1..], key, h);
      var rest := Retain(xs[1..], key, h);
      if key(xs[0]) != h {
        var r := [xs[0]] + rest;
        forall i, j | 0 <= i < j < |r| ensures key(r[i]) != key(r[j]) {
          if i == 0 {
            assert r[j] == rest[j - 1] && rest[j - 1] in rest;
            assert rest[j - 1] in xs[1..];
            var k :| 0 <= k < |xs[1..]| && xs[1..][k] == rest[j - 1];
          } else {
            assert r[i] == rest[i - 1] && r[j] == rest[j - 1];
          }
        }
      }
    }
  }

  lemma {:induction false} RetainSubsequence<T>(xs: seq<T>, key: T -> Handle, h: Handle)
    ensures Subsequence(Retain(xs, key, h), xs)
  {
    if |xs| > 0 {
      RetainSubsequence(xs[1..], key, h);
      RetainMembers(xs[1..], key, h);
      var rest := Retain(xs[1..], key, h);
      if key(xs[0]) == h {
        if |rest| > 0 {
          assert rest[0] in rest;
          assert rest[0] != xs[0];
        }
      } else {
        assert ([xs[0]] + rest)[1..] == rest;
      }
    }
  }

  lemma {:induction false} FilterSubsequence<T>(xs: seq<T>, keep: T -> bool)
    ensures Subsequence(Filter(xs, keep), xs)
  {
    if |xs| > 0 {
      FilterSubsequence(xs[1..], keep);
      FilterMembers(xs[1..], keep);
      var rest := Filter(xs[1..], keep);
      if keep(xs[0]) {
        assert ([xs[0]] + rest)[1..] == rest;
      } else if |rest| > 0 {
        assert rest[0] in rest;
      }
    }
  }

  lemma {:induction false} FilterUnique<T>(xs: seq<T>, key: T -> Handle, keep: T -> bool)
    requires Unique(xs, key)
    ensures Unique(Filter(xs, keep), key)
  {
    if |xs| > 0 {
      UniqueTail(xs, key);
      FilterUnique(xs[1..], key, keep);
      FilterMembers(xs[1..], keep);
      var rest := Filter(xs[1..], keep);
      if keep(xs[0]) {
        var r := [xs[0]] + rest;
        forall i, j | 0 <= i < j < |r| ensures key(r[i]) != key(r[j]) {
          if i == 0 {
            assert r[j] == rest[j - 1] && rest[j - 1] in rest;
            assert rest[j - 1] in xs[1..];
            var k :| 0 <= k < |xs[1..]| && xs[1..][k] == rest[j - 1];
          } else {
            assert r[i] == rest[i - 1] && r[j] == rest[j - 1];
          }
        }
      }
    }
  }

  /** What `unmanage` promises about the registry when it removes `h`. */
  lemma RemovalProperties<T>(xs: seq<T>, key: T -> Handle, h: Handle)
    requires Unique(xs, key)
    ensures !Any(Retain(xs, key, h), key, h)
    ensures Unique(Retain(xs, key, h), key)
    ensures Subsequence(Retain(xs, key, h), xs)
    ensures forall g :: g != h ==> (Any(Retain(xs, key, h), key, g) <==> Any(xs, key, g))
    ensures Any(xs, key, h) ==> |Retain(xs, key, h)| == |xs| - 1
    ensures !Any(xs, key, h) ==> Retain(xs, key, h) == xs
  {
    RetainUnique(xs, key, h);
    RetainSubsequence(xs, key, h);
    RetainMembers(xs, key, h);
    var r := Retain(xs, key, h);
    if Any(xs, key, h) {
      var i :| 0 <= i < |xs| && key(xs[i]) == h;
      RetainAt(xs, key, i);
    } else {
      RetainAbsent(xs, key, h);
    }
    forall g | g != h ensures Any(r, key, g) <==> Any(xs, key, g) {
      if Any(xs, key, g) {
        var i :| 0 <= i < |xs| && key(xs[i]) == g;
        assert xs[i] in r;
        var k :| 0 <= k < |r| && r[k] == xs[i];
      }
      if Any(r, key, g) {
        var k :| 0 <= k < |r| && key(r[k]) == g;
        assert r[k] in xs;
        var i :| 0 <= i < |xs| && xs[i] == r[k];
      }
    }
  }
}
