/** Fixed-size signature texts. */
module Signatures {

  predicate HasNul(s: string) {
    '\0' in s
  }

  /** strncpy into an array of the same size, last character forced to NUL. */
  function CopySignature(signature: string): (r: string)
    ensures |r| == |signature|
    ensures |r| > 0 ==> HasNul(r)
  {
    if |signature| == 0 then ""
    else
      var p := TextLength(signature[..|signature| - 1]);
      assert Padded(signature, p)[|signature| - 1] == '\0';
      Padded(signature, p)
  }

  function Padded(signature: string, p: nat): (r: string)
    requires p <= |signature|
    ensures |r| == |signature|
  {
    signature[..p] + seq(|signature| - p, _ => '\0')
  }

  /** Characters before the first NUL. */
  function TextLength(s: string): (n: nat)
    ensures n <= |s|
    ensures forall i :: 0 <= i < n ==> s[i] != '\0'
    ensures n < |s| ==> s[n] == '\0'
  {
    if |s| == 0 || s[0] == '\0' then 0 else 1 + TextLength(s[1..])
  }

  lemma TextLengthIs(s: string, n: nat)
    requires n <= |s|
    requires forall i :: 0 <= i < n ==> s[i] != '\0'
    requires n < |s| ==> s[n] == '\0'
    ensures TextLength(s) == n
  {
  }

  /** The copy is NUL-terminated and has the text before the first NUL; only a text that fills the
      whole field loses its last character. */
  lemma CopySignatureKeepsText(signature: string)
    ensures
      var r := CopySignature(signature);
      && |r| == |signature| && (|r| > 0 ==> HasNul(r))
      && TextLength(r) == (if HasNul(signature) || signature == "" then TextLength(signature) else |signature| - 1)
      && r[..TextLength(r)] == signature[..TextLength(r)]
  {
    if signature != "" {
      var p := TextLength(signature[..|signature| - 1]);
      TextLengthIs(Padded(signature, p), p);
      TextLengthIs(signature, if HasNul(signature) then p else |signature|);
    }
  }

  /** Copying a copied signature changes nothing, so local structure, buffer and recovered
      structure carry the same text. */
  lemma CopySignatureIdempotent(signature: string)
    ensures CopySignature(CopySignature(signature)) == CopySignature(signature)
  {
    if |signature| > 0 {
      var n := |signature|;
      var r := CopySignature(signature);
      var p, q := TextLength(signature[..n - 1]), TextLength(r[..n - 1]);
      assert forall i :: 0 <= i < p ==> r[i] == signature[i] != '\0';
      assert p < n - 1 ==> r[p] == '\0';
      assert Padded(r, p) == Padded(signature, p);
    }
  }
}
