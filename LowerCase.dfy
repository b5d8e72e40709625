/** toLower: a copy of a token with the ASCII capitals turned into small letters. */
module LowerCase {

  predicate IsUpper(c: char)
  {
    'A' <= c <= 'Z'
  }

  /** One character: A-Z moves up by 32, the distance from `A` to `a`; everything else stays. */
  function LowerChar(c: char): (r: char)
    ensures !IsUpper(r)
    ensures IsUpper(c) ==> r as int == c as int + 32 && 'a' <= r <= 'z'
    ensures !IsUpper(c) ==> r == c
  {
    if IsUpper(c) then (c as int + 32) as char else c
  }

  /** The whole token, a character at a time: the same length, and no capital left. */
  function Lower(s: string): (r: string)
    ensures |r| == |s|
    ensures forall i :: 0 <= i < |s| ==> !IsUpper(r[i])
  {
    seq(|s|, i requires 0 <= i < |s| => LowerChar(s[i]))
  }

  /** strdup the token, then rewrite each capital of the copy in place. */
  method ToLower(tok: string) returns (token: string)
    ensures token == Lower(tok)
  {
    var copy := new char[|tok|](i requires 0 <= i < |tok| => tok[i]);
    var i := 0;
    while i < copy.Length
      invariant 0 <= i <= copy.Length
      invariant forall j :: 0 <= j < i ==> copy[j] == LowerChar(tok[j])
      invariant forall j :: i <= j < copy.Length ==> copy[j] == tok[j]
    {
      if 'A' <= copy[i] <= 'Z' {
        copy[i] := (copy[i] as int + 32) as char;
      }
      i := i + 1;
    }
    token := copy[..];
  }

  /** Lowering twice is lowering once. */
  lemma LowerIdempotent(s: string)
    ensures Lower(Lower(s)) == Lower(s)
  {
  }

  /** A token is its own lower-case copy exactly when it has no capital. */
  lemma LowerFixed(s: string)
    ensures Lower(s) == s <==> forall i :: 0 <= i < |s| ==> !IsUpper(s[i])
  {
    if Lower(s) == s {
      forall i | 0 <= i < |s| ensures !IsUpper(s[i]) {
        assert Lower(s)[i] == s[i];
      }
    }
  }

  /** Lowering distributes over concatenation. */
  lemma LowerAppend(s: string, t: string)
    ensures Lower(s + t) == Lower(s) + Lower(t)
  {
    assert forall i :: 0 <= i < |s + t| ==> Lower(s + t)[i] == (Lower(s) + Lower(t))[i];
  }
}
