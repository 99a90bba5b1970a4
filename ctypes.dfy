/**
  Machine vocabulary shared by the rest of the model: bytes, an optional
  value, and the C-string conventions (a string ends at its first NUL) that
  the plugin relies on through strlen, strcmp and strncmp.
 */
module CTypes {

  /** One `uint8_t`. */
  newtype byte = x: int | 0 <= x < 256

  datatype Option<T> = None | Some(value: T)

  const NulByte: byte := 0
  const NulChar: char := '\0'

  /** The C string a buffer holds: everything before the first terminator,
      or the whole buffer when it has none. */
  function CStr<T(==)>(s: seq<T>, nul: T): (r: seq<T>)
    ensures |r| <= |s| && r == s[..|r|]
    ensures nul !in r
    ensures |r| < |s| ==> s[|r|] == nul
  {
    if s == [] || s[0] == nul then [] else [s[0]] + CStr(s[1..], nul)
  }

  /** `strlen`: the index of the first terminator, or the buffer's length
      when it has none. */
  function StrLen<T(==)>(s: seq<T>, nul: T): (r: nat)
    ensures r <= |s| && (r < |s| ==> s[r] == nul)
    ensures forall i :: 0 <= i < r ==> s[i] != nul
  {
    var c := CStr(s, nul);
    assert forall i :: 0 <= i < |c| ==> s[i] == c[i];
    |c|
  }

  /** `strcmp(a, b) == 0`: the strings have one length and agree character
      by character up to it. */
  predicate StrEqual<T(==)>(a: seq<T>, b: seq<T>, nul: T): (r: bool)
    ensures r <==> StrLen(a, nul) == StrLen(b, nul) &&
                   forall i :: 0 <= i < StrLen(a, nul) ==> a[i] == b[i]
  {
    var ca, cb := CStr(a, nul), CStr(b, nul);
    assert forall i :: 0 <= i < |ca| ==> a[i] == ca[i];
    assert forall i :: 0 <= i < |cb| ==> b[i] == cb[i];
    ca == cb
  }

  function Take<T>(s: seq<T>, n: nat): seq<T>
  {
    if n <= |s| then s[..n] else s
  }

  /** `strncmp(a, b, n) == 0`: the two terminated strings agree on their
      first `n` characters, the terminator included. Within both strings
      that is equality of the first `n` characters; when one string ends
      before `n`, it is `strcmp` equality. */
  predicate StrNEqual<T(==)>(a: seq<T>, b: seq<T>, n: nat, nul: T): (r: bool)
    ensures n <= StrLen(a, nul) && n <= StrLen(b, nul) ==> (r <==> a[..n] == b[..n])
    ensures StrLen(a, nul) < n || StrLen(b, nul) < n ==> (r <==> StrEqual(a, b, nul))
  {
    var ca, cb := CStr(a, nul), CStr(b, nul);
    var r := Take(ca + [nul], n) == Take(cb + [nul], n);
    assert r && (|ca| < n || |cb| < n) ==> ca == cb by {
      if r && (|ca| < n || |cb| < n) {
        StrNEqualShort(ca, cb, n, nul);
      }
    }
    assert n <= |ca| ==> a[..n] == ca[..n];
    assert n <= |cb| ==> b[..n] == cb[..n];
    r
  }

  /** Two terminator-free strings whose terminated forms agree on `n`
      elements, one of them shorter than `n`, are equal. */
  lemma {:induction false} StrNEqualShort<T>(ca: seq<T>, cb: seq<T>, n: nat, nul: T)
    requires nul !in ca && nul !in cb
    requires Take(ca + [nul], n) == Take(cb + [nul], n)
    requires |ca| < n || |cb| < n
    ensures ca == cb
  {
    var ta, tb := Take(ca + [nul], n), Take(cb + [nul], n);
    var m := if |ca| <= |cb| then |ca| else |cb|;
    assert m < n && m < |ta|;
    assert forall i :: 0 <= i < m ==> ca[i] == ta[i] == tb[i] == cb[i];
    assert ta[m] == nul && tb[m] == nul;
    assert |ca| == |cb|;
  }

  /** A string without a terminator in it is its own C string. */
  lemma {:induction false} CStrOfPlain<T>(s: seq<T>, nul: T)
    requires nul !in s
    ensures CStr(s, nul) == s
  {
    if s != [] {
      CStrOfPlain(s[1..], nul);
    }
  }

  /** Comparing a buffer with a terminator-free literal of length `n` using
      `strncmp(a, lit, n)` succeeds exactly when the buffer's string starts
      with the literal. */
  lemma {:induction false} StrNEqualPrefix<T>(a: seq<T>, lit: seq<T>, nul: T)
    requires nul !in lit
    ensures StrNEqual(a, lit, |lit|, nul) <==>
              |CStr(a, nul)| >= |lit| && CStr(a, nul)[..|lit|] == lit
  {
    CStrOfPlain(lit, nul);
    var ca := CStr(a, nul) + [nul];
    assert Take(CStr(lit, nul) + [nul], |lit|) == lit;
    if |CStr(a, nul)| < |lit| {
      var i := |CStr(a, nul)|;
      assert Take(ca, |lit|)[i] == nul != lit[i];
    } else {
      assert Take(ca, |lit|) == CStr(a, nul)[..|lit|];
    }
  }

  /** Advancing a pointer into a C string by `n` characters yields the rest
      of that string (`path + dirLength`). */
  lemma {:induction false} CStrDrop<T>(s: seq<T>, n: nat, nul: T)
    requires n <= |CStr(s, nul)|
    ensures n <= |s| && CStr(s[n..], nul) == CStr(s, nul)[n..]
  {
    if n > 0 {
      CStrDrop(s[1..], n - 1, nul);
      assert s[1..][n - 1..] == s[n..];
    }
  }

  /** The bytes of a narrow string, one per character (`char` to `uint8_t`
      keeps the low eight bits). */
  function Ascii(s: string): (r: seq<byte>)
    ensures |r| == |s|
    ensures forall i :: 0 <= i < |s| ==> r[i] as int == s[i] as int % 256
  {
    seq(|s|, i requires 0 <= i < |s| => (s[i] as int % 256) as byte)
  }

  /** After a successful `strncmp(s, lit, |lit|)` against a terminator-free
      literal, the string is the literal followed by the string that starts
      `|lit|` characters in. */
  lemma {:induction false} StrNEqualSplit<T>(s: seq<T>, lit: seq<T>, nul: T)
    requires nul !in lit
    requires StrNEqual(s, lit, |lit|, nul)
    ensures |lit| <= |s| && CStr(s, nul) == lit + CStr(s[|lit|..], nul)
  {
    StrNEqualPrefix(s, lit, nul);
    var c := CStr(s, nul);
    assert |c| >= |lit| && c[..|lit|] == lit;
    CStrDrop(s, |lit|, nul);
    assert CStr(s[|lit|..], nul) == c[|lit|..];
    assert c == c[..|lit|] + c[|lit|..];
  }

  /** A common prefix cancels. */
  lemma {:induction false} PrefixCancels<T>(d: seq<T>, rest: seq<T>, name: seq<T>)
    ensures d + rest == d + name <==> rest == name
  {
    assert (d + rest)[|d|..] == rest && (d + name)[|d|..] == name;
  }

  /** A buffer whose first `n` elements already hold a terminator holds
      the same string as those `n` elements, whatever follows. */
  lemma {:induction false} CStrOfPrefix<T>(s: seq<T>, n: nat, nul: T)
    requires n <= |s| && |CStr(s[..n], nul)| < n
    ensures CStr(s, nul) == CStr(s[..n], nul)
  {
    if s[0] != nul {
      assert s[..n][1..] == s[1..][..n - 1];
      CStrOfPrefix(s[1..], n - 1, nul);
    }
  }

  /** Bytes written at offset `k` that hold their own terminator decide the
      string read from `k`, whatever follows them. */
  lemma {:induction false} CStrOfWrittenPrefix<T>(s: seq<T>, k: nat, w: seq<T>, nul: T)
    requires k + |w| <= |s| && s[k..k + |w|] == w
    requires |CStr(w, nul)| < |w|
    ensures CStr(s[k..], nul) == CStr(w, nul)
  {
    assert s[k..][..|w|] == w;
    CStrOfPrefix(s[k..], |w|, nul);
  }

  /** A `uint8_t x[] = "..."` initializer: the characters followed by the
      terminating NUL, which `sizeof` counts. */
  function CLiteral(s: string): (r: seq<byte>)
    ensures |r| == |s| + 1 && r[|s|] == NulByte
    ensures r[..|s|] == Ascii(s)
  {
    Ascii(s) + [NulByte]
  }

  /** Reading a literal back with the C-string conventions gives its
      characters, as long as the literal holds no NUL of its own. */
  lemma {:induction false} CLiteralCStr(s: string)
    requires forall i :: 0 <= i < |s| ==> s[i] as int % 256 != 0
    ensures CStr(CLiteral(s), NulByte) == Ascii(s)
  {
    assert forall i :: 0 <= i < |s| ==> Ascii(s)[i] != NulByte;
    CStrAppendNul(Ascii(s), NulByte);
  }

  lemma {:induction false} CStrAppendNul<T>(s: seq<T>, nul: T)
    requires nul !in s
    ensures CStr(s + [nul], nul) == s
  {
    if s != [] {
      assert (s + [nul])[1..] == s[1..] + [nul];
      CStrAppendNul(s[1..], nul);
    }
  }
}
