/** Strings that end at a NUL, over whatever stands for a character. */
module CStrings {
  /** The first NUL at or after i; the end of the data if there is none. */
  function FirstNul<T(==)>(s: seq<T>, nul: T, i: nat): (n: nat)
    requires i <= |s|
    ensures i <= n <= |s| && (n < |s| ==> s[n] == nul) && forall j :: i <= j < n ==> s[j] != nul
    decreases |s| - i
  {
    if i == |s| || s[i] == nul then i else FirstNul(s, nul, i + 1)
  }

  /** The C string at an offset of the data. */
  function CString<T(==)>(data: seq<T>, nul: T, offset: nat): seq<T>
    requires offset <= |data|
  {
    data[offset..FirstNul(data, nul, offset)]
  }

  predicate NulFree<T(==)>(s: seq<T>, nul: T) { forall i :: 0 <= i < |s| ==> s[i] != nul }

  /** s stands at an offset of the data, with a NUL behind it. */
  predicate StandsAt<T(==)>(data: seq<T>, nul: T, at: nat, s: seq<T>) {
    at + |s| < |data| && data[at..at + |s|] == s && data[at + |s|] == nul
  }

  /** A string stored with a NUL behind it reads back as its part before its first NUL. */
  lemma StoredStringReads<T>(data: seq<T>, nul: T, before: seq<T>, s: seq<T>)
    requires before + (s + [nul]) <= data
    ensures FirstNul(data, nul, |before|) < |data| && CString(data, nul, |before|) == CString(s, nul, 0)
  {
    hide FirstNul, CString, StandsAt;
    StoredStands(data, nul, before, s);
    StringAt(data, nul, |before|, s);
  }

  lemma StoredStands<T>(data: seq<T>, nul: T, before: seq<T>, s: seq<T>)
    requires before + (s + [nul]) <= data
    ensures StandsAt(data, nul, |before|, s)
  {
    var front := before + (s + [nul]);
    assert front[|before|..] == s + [nul];
    assert data[|before|..|before| + |s|] == front[|before|..|before| + |s|] == s;
    assert data[|before| + |s|] == front[|before| + |s|];
  }

  lemma StringAt<T>(data: seq<T>, nul: T, at: nat, s: seq<T>)
    requires StandsAt(data, nul, at, s)
    ensures at <= |data| && FirstNul(data, nul, at) < |data| && CString(data, nul, at) == CString(s, nul, 0)
  {
    hide FirstNul;
    var n := FirstNul(s, nul, 0);
    forall k | 0 <= k < |s| ensures data[at + k] == s[k] { assert data[at..at + |s|][k] == s[k]; }
    assert data[at + n] == nul;
    forall j | at <= j < at + n ensures data[j] != nul { assert data[at + (j - at)] == s[j - at]; }
    assert data[at..at + n] == s[..n];
  }

  /** Reading keeps the whole string exactly when it holds no NUL. */
  lemma ReadsWholeExactly<T>(s: seq<T>, nul: T)
    ensures CString(s, nul, 0) == s <==> NulFree(s, nul)
  {
    hide FirstNul;
    var n := FirstNul(s, nul, 0);
    assert n == |s| ==> s[..n] == s;
  }
}
