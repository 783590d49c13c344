/** JavaScript strings, bytes, and the small result types shared by every module.
    A JavaScript string is a sequence of 16-bit code units; it need not be well-formed UTF-16. */
module Texts {
  type Unit = x: int | 0 <= x < 0x10000
  type Text = seq<Unit>
  type Byte = x: int | 0 <= x < 0x100

  datatype Option<+T> = None | Some(value: T) {
    predicate IsFailure() { None? }

    function PropagateFailure<U>(): Option<U>
      requires None?
    {
      None
    }

    function Extract(): T
      requires Some?
    {
      value
    }
  }

  datatype Result<+T, +E> = Ok(value: T) | Err(error: E)

  const MAX_SAFE_INTEGER := 0x1F_FFFF_FFFF_FFFF

  /** The code units of an ASCII literal. */
  function Ascii(s: string): (t: Text)
    requires forall i | 0 <= i < |s| :: s[i] as int < 128
    ensures |t| == |s|
    ensures forall i | 0 <= i < |s| :: t[i] == s[i] as int
  {
    seq(|s|, i requires 0 <= i < |s| => s[i] as int)
  }

  /** The same as a total function, for literals in statements; outside ASCII it is a question mark. */
  function Spell(name: string): (t: Text)
    ensures |t| == |name|
    ensures forall i | 0 <= i < |name| :: t[i] == if name[i] as int < 128 then name[i] as int else 63
  {
    seq(|name|, i requires 0 <= i < |name| => if name[i] as int < 128 then name[i] as int else 63)
  }

  lemma SpellParts(a: string, b: string, c: string, i: nat)
    requires i < |a| + |b| + |c|
    ensures Spell(a + b + c)[i] ==
      if i < |a| then Spell(a)[i] else if i < |a| + |b| then Spell(b)[i - |a|] else Spell(c)[i - |a| - |b|]
  {}

  /** The `<` of JavaScript strings: lexicographic by code unit. */
  predicate Less(a: Text, b: Text) {
    b != [] && (a == [] || a[0] < b[0] || (a[0] == b[0] && Less(a[1..], b[1..])))
  }

  lemma {:induction false} LessIrreflexive(a: Text)
    ensures !Less(a, a)
  {
    if a != [] {
      LessIrreflexive(a[1..]);
    }
  }

  lemma {:induction false} LessTransitive(a: Text, b: Text, c: Text)
    requires Less(a, b) && Less(b, c)
    ensures Less(a, c)
  {
    if a != [] && a[0] == b[0] == c[0] {
      LessTransitive(a[1..], b[1..], c[1..]);
    }
  }

  lemma {:induction false} LessTotal(a: Text, b: Text)
    ensures Less(a, b) || a == b || Less(b, a)
  {
    if a != [] && b != [] && a[0] == b[0] {
      LessTotal(a[1..], b[1..]);
      if a[1..] == b[1..] {
        assert a == [a[0]] + a[1..] == [b[0]] + b[1..] == b;
      }
    }
  }

  /** a comes no later than b in the order by code unit: they are equal, or a is a proper prefix of
      b, or a has the smaller unit where they first differ. */
  ghost predicate InOrder(a: Text, b: Text) { a == b || a < b || exists k: nat :: FirstDiffer(a, b, k) && a[k] < b[k] }

  /** The first index at which a and b differ is k. */
  predicate FirstDiffer(a: Text, b: Text, k: nat) {
    k < |a| && k < |b| && a[..k] == b[..k] && a[k] != b[k]
  }

  lemma {:induction false} LessAt(a: Text, b: Text, k: nat)
    requires FirstDiffer(a, b, k)
    ensures Less(a, b) <==> a[k] < b[k]
  {
    if k > 0 {
      assert a[0] == a[..k][0] == b[..k][0] == b[0];
      assert a[1..][..k - 1] == a[..k][1..] && b[1..][..k - 1] == b[..k][1..];
      LessAt(a[1..], b[1..], k - 1);
    }
  }

  lemma {:induction false} LessPrefix(a: Text, b: Text)
    requires a < b
    ensures Less(a, b)
  {
    if a != [] {
      assert a[1..] < b[1..];
      LessPrefix(a[1..], b[1..]);
    }
  }

  lemma {:induction false} LessInOrder(a: Text, b: Text)
    requires Less(a, b)
    ensures a < b || exists k: nat :: FirstDiffer(a, b, k) && a[k] < b[k]
  {
    if a != [] {
      if a[0] != b[0] {
        assert FirstDiffer(a, b, 0);
      } else {
        LessInOrder(a[1..], b[1..]);
        assert a == [a[0]] + a[1..] && b == [b[0]] + b[1..];
        if k: nat :| FirstDiffer(a[1..], b[1..], k) && a[1..][k] < b[1..][k] {
          assert a[..k + 1] == [a[0]] + a[1..][..k] && b[..k + 1] == [b[0]] + b[1..][..k];
          assert FirstDiffer(a, b, k + 1);
        }
      }
    }
  }

  /** The order by code unit is what the comparison of the source decides. */
  lemma LessExact(a: Text, b: Text)
    ensures !Less(b, a) <==> InOrder(a, b)
  {
    LessTotal(a, b);
    if Less(a, b) {
      LessInOrder(a, b);
    } else if a == b {
      LessIrreflexive(a);
    }
    if a < b {
      LessPrefix(a, b);
      LessAsymmetric(a, b);
    }
    if k: nat :| FirstDiffer(a, b, k) && a[k] < b[k] {
      LessAt(a, b, k);
      LessAsymmetric(a, b);
    }
  }

  lemma LessAsymmetric(a: Text, b: Text)
    requires Less(a, b)
    ensures !Less(b, a)
  {
    if Less(b, a) {
      LessTransitive(a, b, a);
      LessIrreflexive(a);
    }
  }

  /** ASCII letters of `toLowerCase`; the texts it is used on are hexadecimal. */
  function Lower(t: Text): (r: Text)
    ensures |r| == |t|
    ensures forall i | 0 <= i < |t| :: r[i] == if 65 <= t[i] <= 90 then t[i] + 32 else t[i]
  {
    seq(|t|, i requires 0 <= i < |t| => if 65 <= t[i] <= 90 then t[i] + 32 else t[i])
  }

  /** ASCII letters of `toUpperCase`; the texts it is used on are HTTP tokens. */
  function Upper(t: Text): (r: Text)
    ensures |r| == |t|
    ensures forall i | 0 <= i < |t| :: r[i] == if 97 <= t[i] <= 122 then t[i] - 32 else t[i]
  {
    seq(|t|, i requires 0 <= i < |t| => if 97 <= t[i] <= 122 then t[i] - 32 else t[i])
  }

  predicate IsDigit(u: Unit) { 48 <= u <= 57 }

  predicate IsAlphaNumeric(u: Unit) { IsDigit(u) || 65 <= u <= 90 || 97 <= u <= 122 }

  /** The 64 units of the URL-safe alphabet of section 5 of RFC 4648. */
  predicate IsBase64Url(u: Unit) { IsAlphaNumeric(u) || u == 45 || u == 95 }

  /** `^[0-9a-f]{64}$`. */
  predicate IsHash(t: Text) {
    |t| == 64 && forall i | 0 <= i < 64 :: IsDigit(t[i]) || 97 <= t[i] <= 102
  }

  /** A unit between two ASCII characters, inclusive. */
  predicate Between(u: Unit, first: char, last: char) { first as int <= u <= last as int }

  lemma HashSpelled(t: Text)
    ensures IsHash(t) <==> |t| == 64 && forall i | 0 <= i < |t| :: Between(t[i], '0', '9') || Between(t[i], 'a', 'f')
    ensures MAX_SAFE_INTEGER == 9007199254740991
  {}

  lemma LowerHash(t: Text)
    requires IsHash(t)
    ensures Lower(t) == t
  {}
}
