/** The two library functions the model keeps abstract: NFC normalisation (Unicode Standard Annex #15) and
    SHA-256 in hexadecimal. Only the facts below are used of them. */
module Platform {
  import opened Text

  datatype Library = Library(nfc: string -> string, sha256: string -> string)

  predicate IsControl(c: char) {
    var n := c as int;
    n <= 8 || n == 11 || n == 12 || 14 <= n <= 31 || n == 127
  }

  predicate HasControl(s: string) {
    exists i :: 0 <= i < |s| && IsControl(s[i])
  }

  const HASH_PREFIX := "rcv1:"

  // The facts are stated one string at a time, and used by asking for them.

  predicate NormalisedOnce(l: Library, s: string) {
    l.nfc(l.nfc(s)) == l.nfc(s) && (l.nfc(s) == [] ==> s == [])
  }

  predicate PlainStays(l: Library, s: string) {
    Ascii(s) ==> l.nfc(s) == s
  }

  predicate NoNewControl(l: Library, s: string) {
    !HasControl(s) ==> !HasControl(l.nfc(s))
  }

  predicate Separates(l: Library, a: string, b: string) {
    l.sha256(a) == l.sha256(b) ==> a == b
  }

  predicate HashIsPlain(l: Library, a: string) {
    l.nfc(HASH_PREFIX + l.sha256(a)) == HASH_PREFIX + l.sha256(a)
  }

  /** Normalising twice changes nothing, no text normalises to nothing, ASCII text is already normal and no
      control character appears; the hash separates texts (collisions are outside the model) and is plain text. */
  ghost predicate Sound(l: Library) {
    && (forall s {:trigger NormalisedOnce(l, s)} :: NormalisedOnce(l, s))
    && (forall s {:trigger PlainStays(l, s)} :: PlainStays(l, s))
    && (forall s {:trigger NoNewControl(l, s)} :: NoNewControl(l, s))
    && (forall a, b {:trigger Separates(l, a, b)} :: Separates(l, a, b))
    && (forall a {:trigger HashIsPlain(l, a)} :: HashIsPlain(l, a))
  }

  type Runtime = l: Library | Sound(l) witness Library(s => s, s => s)

  function Nfc(l: Runtime, s: string): (r: string)
    ensures l.nfc(r) == r
    ensures r == [] <==> s == []
  {
    assert NormalisedOnce(l, s) && PlainStays(l, []) && Ascii([]);
    l.nfc(s)
  }

  lemma AsciiIsNormal(l: Runtime, s: string)
    requires Ascii(s)
    ensures l.nfc(s) == s
  {
    assert PlainStays(l, s);
  }

  lemma ControlFree(l: Runtime, s: string)
    requires !HasControl(s)
    ensures !HasControl(l.nfc(s))
  {
    assert NoNewControl(l, s);
  }

  lemma HashSeparates(l: Runtime, a: string, b: string)
    ensures l.sha256(a) == l.sha256(b) <==> a == b
  {
    assert Separates(l, a, b);
  }

  lemma HashIsNormal(l: Runtime, a: string)
    ensures l.nfc(HASH_PREFIX + l.sha256(a)) == HASH_PREFIX + l.sha256(a)
  {
    assert HashIsPlain(l, a);
  }
}
