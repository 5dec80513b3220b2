/** Character-level text helpers shared by the Go colour parser and the
    Rust sport names: lower-casing restricted to the ASCII letters. */
module Text {
  predicate IsUpperAscii(c: char) {
    'A' <= c <= 'Z'
  }

  /** One char lower-cased: `A`..`Z` become `a`..`z`, every other char is
      kept. */
  function LowerChar(c: char): (d: char)
    ensures IsUpperAscii(c) ==> d as int == c as int + 32 && 'a' <= d <= 'z'
    ensures !IsUpperAscii(c) ==> d == c
    ensures !IsUpperAscii(d)
  {
    if IsUpperAscii(c) then (c as int + 32) as char else c
  }

  /** `strings.ToLower` / `str::to_lowercase` on the ASCII letters; every
      other char is kept. */
  function ToLowerAscii(s: string): (r: string)
    ensures |r| == |s|
  {
    if s == [] then [] else [LowerChar(s[0])] + ToLowerAscii(s[1..])
  }

  /** Lower-casing works char by char: the char at `k`. */
  lemma {:induction false} ToLowerAsciiAt(s: string, k: nat)
    requires k < |s|
    ensures ToLowerAscii(s)[k] == LowerChar(s[k])
    decreases k
  {
    if k > 0 {
      ToLowerAsciiAt(s[1..], k - 1);
    }
  }

  /** Lower-casing works char by char. */
  lemma ToLowerAsciiChars(s: string)
    ensures forall i :: 0 <= i < |s| ==> ToLowerAscii(s)[i] == LowerChar(s[i])
  {
    forall i | 0 <= i < |s|
      ensures ToLowerAscii(s)[i] == LowerChar(s[i])
    {
      ToLowerAsciiAt(s, i);
    }
  }

  /** Lower-casing commutes with keeping a prefix. */
  lemma {:induction false} ToLowerAsciiTake(s: string, j: nat)
    requires j <= |s|
    ensures ToLowerAscii(s[..j]) == ToLowerAscii(s)[..j]
    decreases j
  {
    if j > 0 {
      ToLowerAsciiTake(s[1..], j - 1);
      assert s[..j][1..] == s[1..][..j - 1];
    }
  }

  /** Taking a prefix of a suffix is taking a slice. */
  lemma SliceOfSuffix<T>(u: seq<T>, i: nat, j: nat)
    requires i <= j <= |u|
    ensures u[i..][..j - i] == u[i..j]
  {
  }

  /** Dropping the head of a cons gives the tail back. */
  lemma DropHead<T>(x: T, u: seq<T>)
    ensures ([x] + u)[1..] == u
  {
  }

  /** A string without upper-case ASCII letters is its own lower case. */
  lemma ToLowerAsciiFixed(s: string)
    requires forall c :: c in s ==> !IsUpperAscii(c)
    ensures ToLowerAscii(s) == s
  {
    ToLowerAsciiChars(s);
    assert forall k :: 0 <= k < |s| ==> s[k] in s;
  }

  /** Lower-casing twice is lower-casing once. */
  lemma ToLowerAsciiIdempotent(s: string)
    ensures ToLowerAscii(ToLowerAscii(s)) == ToLowerAscii(s)
  {
    ToLowerAsciiChars(s);
    var r := ToLowerAscii(s);
    assert forall c :: c in r ==> !IsUpperAscii(c) by {
      forall c | c in r ensures !IsUpperAscii(c) {
        var k :| 0 <= k < |r| && r[k] == c;
      }
    }
    ToLowerAsciiFixed(r);
  }
}
