/**
 * The list editor behind `NestedComponents` (components/NestedComponents.tsx):
 * a controlled list `value` of child records, the index `toolbar` of the
 * child whose popover toolbar is open (-1 when none is), and the operations
 * that add, remove, reorder and update children.  Also the string hash
 * `uniqueId`.
 */
module NestedComponents {

  /**
   * A child object, as its own enumerable fields.  A `Partial<T>` is a record
   * holding only some of the fields; `{ ...a, ...b }` is `Merge(a, b)`.
   */
  type Record<V> = map<string, V>

  /** `{ ...record, ...changes }`: the fields of `changes` win. */
  function Merge<V>(record: Record<V>, changes: Record<V>): (r: Record<V>)
    ensures r.Keys == record.Keys + changes.Keys
    ensures forall f :: f in changes ==> r[f] == changes[f]
    ensures forall f :: f in record && f !in changes ==> r[f] == record[f]
  {
    record + changes
  }

  /** `[...value, x]`. */
  function Appended<T>(value: seq<T>, x: T): (r: seq<T>)
    ensures |r| == |value| + 1 && r[|value|] == x
    ensures forall k :: 0 <= k < |value| ==> r[k] == value[k]
  {
    value + [x]
  }

  /**
   * `value.filter((_, index) => index !== atIndex)`: keeps, in order, the
   * elements whose position differs from `atIndex`.
   */
  function Removed<T>(value: seq<T>, atIndex: int): (r: seq<T>)
    ensures |r| == if 0 <= atIndex < |value| then |value| - 1 else |value|
  {
    if value == [] then []
    else
      var last := |value| - 1;
      Removed(value[..last], atIndex) + (if last == atIndex then [] else [value[last]])
  }

  /** Filtering out one index is cutting that element out; filtering out a missing index changes nothing. */
  lemma {:induction false} RemovedIsCut<T>(value: seq<T>, atIndex: int)
    ensures Removed(value, atIndex) ==
      if 0 <= atIndex < |value| then value[..atIndex] + value[atIndex + 1..] else value
  {
    if value != [] {
      var last := |value| - 1;
      var init := value[..last];
      RemovedIsCut(init, atIndex);
      if 0 <= atIndex < last {
        assert init[..atIndex] == value[..atIndex];
        assert init[atIndex + 1..] + [value[last]] == value[atIndex + 1..];
        calc {
          Removed(value, atIndex);
          Removed(init, atIndex) + [value[last]];
          (init[..atIndex] + init[atIndex + 1..]) + [value[last]];
          init[..atIndex] + (init[atIndex + 1..] + [value[last]]);
          value[..atIndex] + value[atIndex + 1..];
        }
      } else if atIndex == last {
        assert value[atIndex + 1..] == [];
        calc {
          Removed(value, atIndex);
          Removed(init, atIndex) + [];
          init;
          value[..atIndex] + value[atIndex + 1..];
        }
      } else {
        calc {
          Removed(value, atIndex);
          Removed(init, atIndex) + [value[last]];
          init + [value[last]];
          value;
        }
      }
    }
  }

  /**
   * The list after the child at `from` has moved to position `to`: the
   * children between the two positions shift by one towards `from`.
   */
  function Moved<T>(s: seq<T>, from: int, to: int): (r: seq<T>)
    requires 0 <= from < |s| && 0 <= to < |s|
    ensures |r| == |s| && r[to] == s[from]
  {
    seq(|s|, k requires 0 <= k < |s| =>
      if k == to then s[from]
      else if from < to && from <= k < to then s[k + 1]
      else if to < from && to < k <= from then s[k - 1]
      else s[k])
  }

  /**
   * Moving is what the two splices of `moveChild` do: cut the child out at
   * `from`, then insert it at `to` in the shortened list.
   */
  lemma MovedIsSplice<T>(s: seq<T>, from: int, to: int)
    requires 0 <= from < |s| && 0 <= to < |s|
    ensures var rest := s[..from] + s[from + 1..];
      Moved(s, from, to) == rest[..to] + [s[from]] + rest[to..]
  {
    var rest := s[..from] + s[from + 1..];
    var spliced := rest[..to] + [s[from]] + rest[to..];
    assert |spliced| == |s|;
    forall k | 0 <= k < |s|
      ensures Moved(s, from, to)[k] == spliced[k]
    {
      if k < to {
        assert spliced[k] == rest[k];
      } else if k > to {
        assert spliced[k] == rest[k - 1];
      }
    }
  }

  /** Moving keeps every child exactly once: the result is a permutation. */
  lemma MovedIsPermutation<T>(s: seq<T>, from: int, to: int)
    requires 0 <= from < |s| && 0 <= to < |s|
    ensures |Moved(s, from, to)| == |s|
    ensures multiset(Moved(s, from, to)) == multiset(s)
  {
    MovedIsSplice(s, from, to);
    SplicePermutation(s, from, to);
  }

  /** Cutting the element at `from` out and inserting it at `to` keeps the multiset. */
  lemma SplicePermutation<T>(s: seq<T>, from: int, to: int)
    requires 0 <= from < |s| && 0 <= to < |s|
    ensures var rest := s[..from] + s[from + 1..];
      multiset(rest[..to] + [s[from]] + rest[to..]) == multiset(s)
  {
    var x := s[from];
    var rest := s[..from] + s[from + 1..];
    assert s == (s[..from] + [x]) + s[from + 1..];
    assert rest == rest[..to] + rest[to..];
    calc {
      multiset(rest[..to] + [x] + rest[to..]);
      multiset(rest[..to] + [x]) + multiset(rest[to..]);
      multiset(rest[..to]) + multiset([x]) + multiset(rest[to..]);
      multiset(rest) + multiset([x]);
      multiset(s[..from]) + multiset(s[from + 1..]) + multiset([x]);
      multiset(s[..from] + [x]) + multiset(s[from + 1..]);
      multiset(s);
    }
  }

  /** Moving a child back to where it came from restores the list. */
  lemma MovedBack<T>(s: seq<T>, from: int, to: int)
    requires 0 <= from < |s| && 0 <= to < |s|
    ensures Moved(Moved(s, from, to), to, from) == s
  {
    var m := Moved(s, from, to);
    var back := Moved(m, to, from);
    forall k | 0 <= k < |s|
      ensures back[k] == s[k]
    {
    }
  }

  /** Moving a child to a neighbouring position swaps the two and leaves every other child in place. */
  lemma MovedToNeighbourIsSwap<T>(s: seq<T>, from: int, to: int)
    requires 0 <= from < |s| && 0 <= to < |s|
    requires to == from - 1 || to == from + 1
    ensures Moved(s, from, to) == s[from := s[to]][to := s[from]]
  {
  }

  /** The signed 32-bit range, and the modulus of JavaScript's `ToInt32`. */
  const Pow31: int := 0x8000_0000
  const Pow32: int := 0x1_0000_0000

  /** A UTF-16 code unit, as `String.prototype.charCodeAt` returns it. */
  type CodeUnit = c: int | 0 <= c < 0x1_0000

  /** JavaScript's `ToInt32`: the signed 32-bit integer congruent to `x` modulo 2^32. */
  function ToInt32(x: int): (r: int)
    ensures -Pow31 <= r < Pow31
  {
    var m := x % Pow32;
    if m < Pow31 then m else m - Pow32
  }

  /** `ToInt32` gives back every signed 32-bit integer `y` from any `y + k * 2^32`. */
  lemma ToInt32Unique(y: int, k: int)
    requires -Pow31 <= y < Pow31
    ensures ToInt32(y + k * Pow32) == y
  {
    var x := y + k * Pow32;
    if y >= 0 {
      assert x % Pow32 == y;
    } else {
      assert x == (y + Pow32) + (k - 1) * Pow32;
      assert x % Pow32 == y + Pow32;
    }
  }

  /** How many multiples of 2^32 `ToInt32` takes off `x`. */
  function Wraps(x: int): int
  {
    if x % Pow32 < Pow31 then x / Pow32 else x / Pow32 + 1
  }

  lemma ToInt32Offset(x: int)
    ensures ToInt32(x) == x - Wraps(x) * Pow32
  {
  }

  /** Adding a multiple of 2^32 does not change `ToInt32`. */
  lemma ToInt32Shift(x: int, k: int)
    ensures ToInt32(x + k * Pow32) == ToInt32(x)
  {
    var y := ToInt32(x);
    var w := Wraps(x);
    ToInt32Offset(x);
    assert x + k * Pow32 == y + (w + k) * Pow32;
    ToInt32Unique(y, w + k);
  }

  /** `h << 5`: the operand is taken as a 32-bit integer and the shifted bits wrap. */
  function ShiftLeft5(h: int): (r: int)
    ensures -Pow31 <= r < Pow31
    ensures r == ToInt32(32 * h)
  {
    ToInt32Offset(h);
    assert ToInt32(h) * 32 == 32 * h + (-32 * Wraps(h)) * Pow32;
    ToInt32Shift(32 * h, -32 * Wraps(h));
    ToInt32(ToInt32(h) * 32)
  }

  /** `(h << 5) - h + c` followed by `|= 0` is `31 * h + c` wrapped to 32 bits. */
  lemma HashStep(h: int, c: int)
    ensures ToInt32(ShiftLeft5(h) - h + c) == ToInt32(31 * h + c)
  {
    var a := ToInt32(h);
    ToInt32Offset(h);
    var wa := Wraps(h);
    assert a == h - wa * Pow32;
    var b := ShiftLeft5(h);
    ToInt32Offset(a * 32);
    var wb := Wraps(a * 32);
    assert b == a * 32 - wb * Pow32;
    assert b - h + c == (31 * h + c) + (-32 * wa - wb) * Pow32;
    ToInt32Shift(31 * h + c, -32 * wa - wb);
  }

  /** The hash `uniqueId` keeps after each code unit: `31 * h + c`, wrapped at every step. */
  function Hash(codes: seq<CodeUnit>): (h: int)
    ensures -Pow31 <= h < Pow31
  {
    if codes == [] then 0
    else ToInt32(31 * Hash(codes[..|codes| - 1]) + codes[|codes| - 1])
  }

  /** The same polynomial over the unbounded integers (Horner's rule), never wrapped. */
  function Polynomial(codes: seq<CodeUnit>): int
  {
    if codes == [] then 0
    else 31 * Polynomial(codes[..|codes| - 1]) + codes[|codes| - 1]
  }

  /** Wrapping at every step gives the same hash as wrapping the exact polynomial once. */
  lemma {:induction false} HashIsWrappedPolynomial(codes: seq<CodeUnit>)
    ensures Hash(codes) == ToInt32(Polynomial(codes))
  {
    if codes != [] {
      var init := codes[..|codes| - 1];
      var c := codes[|codes| - 1];
      HashIsWrappedPolynomial(init);
      var p := Polynomial(init);
      ToInt32Offset(p);
      var w := Wraps(p);
      assert 31 * Hash(init) + c == (31 * p + c) + (-31 * w) * Pow32;
      ToInt32Shift(31 * p + c, -31 * w);
    }
  }

  /** The decimal digit for `d`. */
  function DigitChar(d: int): char
    requires 0 <= d < 10
  {
    "0123456789"[d]
  }

  predicate IsDigit(ch: char)
  {
    '0' <= ch <= '9'
  }

  /** `Number.prototype.toString()` of a non-negative integer: decimal, without leading zeros. */
  function Decimal(n: nat): (s: string)
    ensures |s| >= 1
    ensures forall i :: 0 <= i < |s| ==> IsDigit(s[i])
    ensures s[0] == '0' ==> n == 0
  {
    if n < 10 then [DigitChar(n)] else Decimal(n / 10) + [DigitChar(n % 10)]
  }

  /** The value of a string of decimal digits. */
  function DecimalValue(s: string): nat
    requires forall i :: 0 <= i < |s| ==> IsDigit(s[i])
  {
    if s == [] then 0
    else
      assert IsDigit(s[|s| - 1]);
      DecimalValue(s[..|s| - 1]) * 10 + (s[|s| - 1] as int - '0' as int)
  }

  /** The digit for `d` reads back as `d`. */
  lemma DigitCharValue(d: int)
    requires 0 <= d < 10
    ensures IsDigit(DigitChar(d)) && DigitChar(d) as int - '0' as int == d
  {
  }

  /** Reading back the decimal text gives the number. */
  lemma {:induction false} DecimalRoundTrip(n: nat)
    ensures DecimalValue(Decimal(n)) == n
  {
    var s := Decimal(n);
    var last := DigitChar(n % 10);
    DigitCharValue(n % 10);
    if n < 10 {
      assert s == [last];
      assert s[..0] == [];
    } else {
      assert s == Decimal(n / 10) + [last];
      assert s[..|s| - 1] == Decimal(n / 10);
      DecimalRoundTrip(n / 10);
    }
  }

  /**
   * `uniqueId(obj)` over the code units of `JSON.stringify(obj)`: the decimal
   * text of the absolute value of the wrapped hash.  `-(-2^31)` is 2^31 in
   * JavaScript's doubles, so the value can reach 2^31.
   */
  method UniqueId(codes: seq<CodeUnit>) returns (id: string)
    ensures id == Decimal(if Hash(codes) < 0 then -Hash(codes) else Hash(codes))
    ensures id[0] != '-' && forall i :: 0 <= i < |id| ==> IsDigit(id[i])
    ensures DecimalValue(id) <= Pow31
    ensures var h := ToInt32(Polynomial(codes)); DecimalValue(id) == if h < 0 then -h else h
  {
    var hash := 0;
    for i := 0 to |codes|
      invariant hash == Hash(codes[..i])
    {
      HashExtend(codes, i, hash);
      hash := ShiftLeft5(hash) - hash + codes[i];
      hash := ToInt32(hash);
    }
    assert codes[..|codes|] == codes;
    if hash < 0 {
      hash := -hash;
    }
    id := Decimal(hash);
    AbsHashDecimal(codes);
  }

  /** One turn of the loop of `uniqueId` extends the hash by the next code unit. */
  lemma HashExtend(codes: seq<CodeUnit>, i: int, hash: int)
    requires 0 <= i < |codes| && hash == Hash(codes[..i])
    ensures ToInt32(ShiftLeft5(hash) - hash + codes[i]) == Hash(codes[..i + 1])
  {
    assert codes[..i + 1][..i] == codes[..i];
    HashStep(hash, codes[i]);
  }

  /** The decimal text of the absolute hash reads back as that value, at most 2^31. */
  lemma AbsHashDecimal(codes: seq<CodeUnit>)
    ensures var a := if Hash(codes) < 0 then -Hash(codes) else Hash(codes);
      DecimalValue(Decimal(a)) == a <= Pow31 &&
      var h := ToInt32(Polynomial(codes)); a == if h < 0 then -h else h
  {
    var a := if Hash(codes) < 0 then -Hash(codes) else Hash(codes);
    DecimalRoundTrip(a);
    HashIsWrappedPolynomial(codes);
  }

  /**
   * The state of one `NestedEditor`.  `value` is the controlled list: every
   * operation hands its new list to `onChange`, and the owner passes it back
   * as the next `value`, so the model stores it here.
   */
  class NestedEditor<V> {
    var value: seq<Record<V>>
    /** Index of the child whose toolbar popover is open; -1 when none is. */
    var toolbar: int
    /** The object copied by `addChild` (`{}` unless given). */
    const emptyObject: Record<V>
    const maxItems: int

    constructor (value: seq<Record<V>>, emptyObject: Record<V>, maxItems: int)
      ensures this.value == value && this.emptyObject == emptyObject && this.maxItems == maxItems
      ensures toolbar == -1
    {
      this.value := value;
      this.emptyObject := emptyObject;
      this.maxItems := maxItems;
      toolbar := -1;
    }

    /** The add button is enabled (its `disabled` is `value.length >= maxItems`). */
    predicate AddEnabled()
      reads this
    {
      !(|value| >= maxItems)
    }

    /** `addChild`: appends a copy of `emptyObject`. */
    method AddChild()
      modifies this`value
      ensures value == Appended(old(value), emptyObject)
    {
      value := value + [emptyObject];
    }

    /** A click on the add button, which only reaches `addChild` while the button is enabled. */
    method ClickAdd() returns (added: bool)
      modifies this`value
      ensures added == old(AddEnabled())
      ensures value == if added then Appended(old(value), emptyObject) else old(value)
      ensures |old(value)| <= maxItems ==> |value| <= maxItems
    {
      added := AddEnabled();
      if added {
        AddChild();
      }
    }

    /** `removeChild(atIndex)`: drops the child at `atIndex`, if any, and closes the toolbar. */
    method RemoveChild(atIndex: int)
      modifies this
      ensures value == Removed(old(value), atIndex)
      ensures value == if 0 <= atIndex < |old(value)|
        then old(value)[..atIndex] + old(value)[atIndex + 1..] else old(value)
      ensures toolbar == -1
    {
      RemovedIsCut(value, atIndex);
      value := Removed(value, atIndex);
      toolbar := -1;
    }

    /** `moveChild(fromIndex, toIndex)`: splices the child out and back in; its toolbar follows it. */
    method MoveChild(fromIndex: int, toIndex: int)
      requires 0 <= fromIndex < |value| && 0 <= toIndex < |value|
      modifies this
      ensures value == Moved(old(value), fromIndex, toIndex)
      ensures multiset(value) == multiset(old(value))
      ensures toolbar == toIndex
    {
      MovedIsSplice(value, fromIndex, toIndex);
      MovedIsPermutation(value, fromIndex, toIndex);
      var newChildren := value;
      var child := newChildren[fromIndex];
      newChildren := newChildren[..fromIndex] + newChildren[fromIndex + 1..];
      newChildren := newChildren[..toIndex] + [child] + newChildren[toIndex..];
      toolbar := toIndex;
      value := newChildren;
    }

    /** `moveUp(index)`: swaps the child with the one before it, unless it is first. */
    method MoveUp(index: int) returns (changed: bool)
      requires 0 <= index < |value|
      modifies this
      ensures changed == (index > 0)
      ensures changed ==> value == old(value)[index := old(value)[index - 1]][index - 1 := old(value)[index]]
      ensures changed ==> toolbar == index - 1
      ensures !changed ==> value == old(value) && toolbar == old(toolbar)
    {
      changed := index > 0;
      if changed {
        MovedToNeighbourIsSwap(value, index, index - 1);
        MoveChild(index, index - 1);
      }
    }

    /** `moveDown(index)`: swaps the child with the one after it, unless it is last. */
    method MoveDown(index: int) returns (changed: bool)
      requires 0 <= index < |value|
      modifies this
      ensures changed == (index < |old(value)| - 1)
      ensures changed ==> value == old(value)[index := old(value)[index + 1]][index + 1 := old(value)[index]]
      ensures changed ==> toolbar == index + 1
      ensures !changed ==> value == old(value) && toolbar == old(toolbar)
    {
      changed := index < |value| - 1;
      if changed {
        MovedToNeighbourIsSwap(value, index, index + 1);
        MoveChild(index, index + 1);
      }
    }

    /** `updateChild(atIndex)(partialChanges)`: merges the changes into that one child. */
    method UpdateChild(atIndex: int, partialChanges: Record<V>)
      requires 0 <= atIndex < |value|
      modifies this`value
      ensures |value| == |old(value)|
      ensures value[atIndex] == Merge(old(value)[atIndex], partialChanges)
      ensures forall k :: 0 <= k < |value| && k != atIndex ==> value[k] == old(value)[k]
    {
      var newChildren := value;
      newChildren := newChildren[atIndex := Merge(newChildren[atIndex], partialChanges)];
      value := newChildren;
    }

    /** Focus inside the child at `index` opens its toolbar. */
    method Focus(index: int)
      requires 0 <= index < |value|
      modifies this`toolbar
      ensures toolbar == index
    {
      toolbar := index;
    }

    /** Closing the popover closes the toolbar. */
    method ClosePopover()
      modifies this`toolbar
      ensures toolbar == -1
    {
      toolbar := -1;
    }
  }
}
