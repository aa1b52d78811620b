/** strings.Contains, the only way the program recognises an error. */
module Text {
  predicate FoundAt(s: string, sub: string, i: nat) { i + |sub| <= |s| && s[i..i + |sub|] == sub }

  predicate Contains(s: string, sub: string) { exists i: nat | i <= |s| :: FoundAt(s, sub, i) }

  /** A text without some character of `sub` does not contain `sub`. */
  lemma MissingChar(s: string, sub: string, c: char)
    requires c in sub && c !in s
    ensures !Contains(s, sub)
  {
    forall i: nat | i <= |s| ensures !FoundAt(s, sub, i) {
      var j :| 0 <= j < |sub| && sub[j] == c;
      if i + |sub| <= |s| { assert s[i..i + |sub|][j] == s[i + j]; }
    }
  }

  lemma FoundChar(s: string, sub: string, i: nat, n: nat)
    requires FoundAt(s, sub, i) && i <= n < i + |sub|
    ensures s[n] in sub && s[i] == sub[0]
  {
    assert forall j | 0 <= j < |sub| :: sub[j] == s[i..i + |sub|][j] == s[i + j];
    assert sub[n - i] == s[i + (n - i)];
    assert sub[0] == s[i + 0];
  }

  lemma FoundInTail(a: string, b: string, sub: string, i: nat)
    requires FoundAt(a + b, sub, |a| + i)
    ensures FoundAt(b, sub, i)
  {
    assert b[i..i + |sub|] == (a + b)[|a| + i..|a| + i + |sub|];
  }

  /** Wrapping an error in a context ("context: error") brings together nothing that was in neither part. */
  lemma WrappedContains(context: string, e: string, sub: string)
    requires sub != [] && sub[0] != ' ' && ':' !in sub
    ensures Contains(context + ": " + e, sub) ==> Contains(context, sub) || Contains(e, sub)
  {
    var head := context + ": ";
    var s, n := head + e, |context|;
    assert s[n] == ':' && s[n + 1] == ' ';
    forall i: nat | i <= |s| && FoundAt(s, sub, i) ensures FoundAt(context, sub, i) || (i >= n + 2 && FoundAt(e, sub, i - n - 2)) {
      FoundChar(s, sub, i, if i <= n < i + |sub| then n else i);
      if i + |sub| <= n {
        assert context[i..i + |sub|] == s[i..i + |sub|];
      } else if i >= n + 2 {
        FoundInTail(head, e, sub, i - n - 2);
      }
    }
  }

  /** Up to its first colon a text is unique. */
  lemma {:induction false} SplitAtColon(a: string, x: string, b: string, y: string)
    requires ':' !in a && ':' !in b && a + ":" + x == b + ":" + y
    ensures a == b && x == y
  {
    var s, t := a + ":" + x, b + ":" + y;
    assert s[|a|] == ':' && t[|b|] == ':';
    assert forall i | 0 <= i < |a| :: s[i] == a[i];
    assert forall i | 0 <= i < |b| :: t[i] == b[i];
    assert a == s[..|a|] && b == t[..|b|];
    assert x == s[|a| + 1..] && y == t[|b| + 1..];
  }
}
