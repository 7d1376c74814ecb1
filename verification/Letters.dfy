// Text without regard to the case of its letters, and what the comparing functions of C say of it.
module Letters {
  import opened Bytes
  import opened Escape

  // A key: lower-case letters, and other bytes that are no letters.
  predicate IsKey(key: seq<byte>) {
    forall i :: 0 <= i < |key| ==> key[i] != 0 && !(65 <= key[i] <= 90)
  }

  predicate Upper(c: byte, letter: byte) {
    97 <= letter <= 122 && c as int + 32 == letter
  }

  // The same text, with any letters in upper case.
  predicate SameLetters(text: seq<byte>, key: seq<byte>) {
    |text| == |key| && forall i :: 0 <= i < |key| ==> text[i] == key[i] || Upper(text[i], key[i])
  }

  predicate Begins(line: seq<byte>, key: seq<byte>) {
    |key| <= |line| && SameLetters(line[..|key|], key)
  }

  // strncasecmp finds a key at the front of a line exactly when the line begins with it.
  lemma MatchIsBegins(line: seq<byte>, key: seq<byte>)
    requires IsKey(key)
    ensures MatchNoCase(line, 0, key) <==> Begins(line, key)
  {
    if MatchNoCase(line, 0, key) {
      forall i | 0 <= i < |key| ensures i < |line| && (line[i] == key[i] || Upper(line[i], key[i])) {
        assert Lower(At(line, 0 + i)) == key[i];
      }
      assert key != [] ==> key[|key| - 1] != 0 && |key| - 1 < |line|;
    }
    if Begins(line, key) {
      forall i | 0 <= i < |key| ensures Lower(At(line, 0 + i)) == key[i] {
        assert line[..|key|][i] == line[i];
      }
    }
  }

  // A text that is the key begins with it, whatever follows.
  lemma TextBegins(text: seq<byte>, key: seq<byte>, rest: seq<byte>)
    requires SameLetters(text, key)
    ensures Begins(text + rest, key)
  {
    assert (text + rest)[..|key|] == text;
  }

  lemma LetterAt(line: seq<byte>, key: seq<byte>, i: nat)
    requires i < |key| && Begins(line, key)
    ensures i < |line| && (line[i] == key[i] || Upper(line[i], key[i]))
  {
    assert line[..|key|][i] == line[i];
  }

  // No line begins with two keys that differ where both have a byte.
  lemma BeginsOnce(line: seq<byte>, key: seq<byte>, other: seq<byte>, i: nat)
    requires IsKey(key) && IsKey(other) && i < |key| && i < |other| && key[i] != other[i]
    ensures !(Begins(line, key) && Begins(line, other))
  {
    hide Begins;
    if Begins(line, key) {
      LetterAt(line, key, i);
    }
    if Begins(line, other) {
      LetterAt(line, other, i);
    }
  }
}
