/**
 * The round-robin choice of API key shared by TranslationService.kt and
 * ApiService.kt: `getApiKeys` asks the settings for the usable keys and
 * fails when there are none; `getNextApiKey` hands out the key under the
 * cursor and moves the cursor to the next position, modulo the number of
 * keys. The `AtomicInteger` is taken as a plain sequential counter.
 */
module KeyRotation {
  import opened Wrappers
  import opened Text

  /** `getApiKeys`: the keys the settings report, or `noKeys` when that list is empty. */
  function GetApiKeys(valid: Result<seq<string>>, noKeys: string): (r: Result<seq<string>>)
    ensures r.Ok? ==> |r.value| > 0 && r == valid
    ensures r.Err? <==> valid.Err? || |valid.value| == 0
    ensures valid.Ok? && |valid.value| == 0 ==> r == Err(noKeys)
  {
    if valid.Err? then valid
    else if |valid.value| == 0 then Err(noKeys)
    else valid
  }

  /** The cursor's next value: `(it + 1) % keys.size`. */
  function Advance(index: nat, n: nat): (r: nat)
    requires n > 0
    ensures r < n
    ensures index + 1 < n ==> r == index + 1
    ensures index + 1 == n ==> r == 0
  {
    (index + 1) % n
  }

  /**
   * `keys[index]` on the list the settings returned: the key, or the
   * `IndexOutOfBoundsException` raised when the list shrank under the cursor.
   */
  function KeyAt(keys: seq<string>, index: nat): (r: Result<string>)
    ensures r.Ok? <==> index < |keys|
    ensures r.Ok? ==> r.value == keys[index]
  {
    if index < |keys| then Ok(keys[index])
    else Err("Index " + NatToString(index) + " out of bounds for length " + NatToString(|keys|))
  }

  /**
   * Both services log the first ten characters of the key they draw;
   * `String.substring(0, 10)` on a shorter key throws this.
   */
  function ShortKeyMessage(length: nat): string {
    "begin 0, end 10, length " + NatToString(length)
  }

  /** The keys `k` successive calls hand out on a fixed list, starting at cursor `index`. */
  function Rotation(keys: seq<string>, index: nat, k: nat): (r: seq<string>)
    requires index < |keys|
    ensures |r| == k
    decreases k
  {
    if k == 0 then [] else [keys[index]] + Rotation(keys, Advance(index, |keys|), k - 1)
  }

  /** The cursor after `k` successive calls on a fixed list. */
  function CursorAfter(keys: seq<string>, index: nat, k: nat): (r: nat)
    requires index < |keys|
    ensures r < |keys|
    decreases k
  {
    if k == 0 then index else CursorAfter(keys, Advance(index, |keys|), k - 1)
  }

  /** Calls made one batch after another hand out the keys of both batches in turn. */
  lemma {:induction false} RotationSplit(keys: seq<string>, index: nat, a: nat, b: nat)
    requires index < |keys|
    ensures Rotation(keys, index, a + b) == Rotation(keys, index, a) + Rotation(keys, CursorAfter(keys, index, a), b)
    ensures CursorAfter(keys, index, a + b) == CursorAfter(keys, CursorAfter(keys, index, a), b)
    decreases a
  {
    if a > 0 {
      var next := Advance(index, |keys|);
      RotationSplit(keys, next, a - 1, b);
      assert a + b - 1 == (a - 1) + b;
    }
  }

  /** Before the end of the list, the calls hand out the keys in list order. */
  lemma {:induction false} RotationRun(keys: seq<string>, index: nat, k: nat)
    requires index < |keys| && index + k <= |keys|
    ensures Rotation(keys, index, k) == keys[index..index + k]
    ensures CursorAfter(keys, index, k) == (if index + k == |keys| then 0 else index + k)
    decreases k
  {
    if k > 0 {
      var next := Advance(index, |keys|);
      if k > 1 {
        RotationRun(keys, next, k - 1);
        assert keys[index..index + k] == [keys[index]] + keys[index + 1..index + k];
      } else {
        assert keys[index..index + k] == [keys[index]];
      }
    }
  }

  /**
   * On a fixed list of n keys, n successive calls hand out every key once,
   * starting at the cursor and wrapping around, and bring the cursor back.
   */
  lemma RotationCycle(keys: seq<string>, index: nat)
    requires index < |keys|
    ensures Rotation(keys, index, |keys|) == keys[index..] + keys[..index]
    ensures multiset(Rotation(keys, index, |keys|)) == multiset(keys)
    ensures CursorAfter(keys, index, |keys|) == index
  {
    CycleOrder(keys, index);
    assert keys == keys[..index] + keys[index..];
  }

  /** The order of a full cycle: from the cursor to the end, then from the start up to the cursor. */
  lemma CycleOrder(keys: seq<string>, index: nat)
    requires index < |keys|
    ensures Rotation(keys, index, |keys|) == keys[index..] + keys[..index]
    ensures CursorAfter(keys, index, |keys|) == index
  {
    var n := |keys|;
    RotationSplit(keys, index, n - index, index);
    RotationRun(keys, index, n - index);
    assert keys[index..n] == keys[index..];
    if index > 0 {
      RotationRun(keys, 0, index);
      assert keys[0..index] == keys[..index];
    }
  }

  /** The cursor both services keep in an `AtomicInteger`. */
  class KeyCursor {
    var index: nat

    constructor ()
      ensures index == 0
    {
      index := 0;
    }

    /**
     * `getNextApiKey` on the list `getApiKeys` produced: an error from it is
     * passed on and leaves the cursor; otherwise the key under the cursor is
     * taken and the cursor moves on.
     */
    method NextApiKey(keys: Result<seq<string>>) returns (key: Result<string>)
      requires keys.Ok? ==> |keys.value| > 0
      modifies this
      ensures keys.Err? ==> key == Err(keys.message) && index == old(index)
      ensures keys.Ok? ==> key == KeyAt(keys.value, old(index)) && index == Advance(old(index), |keys.value|)
    {
      if keys.Err? {
        return Err(keys.message);
      }
      var ks := keys.value;
      var i := index;
      index := (i + 1) % |ks|;
      key := KeyAt(ks, i);
    }
  }
}
