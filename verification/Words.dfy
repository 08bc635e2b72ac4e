/** Tables of words, and the first of them a text starts with. */
module Words {
  import opened Wrappers
  import opened Bytes
  import opened Numerals

  function Ascii(s: string): (t: Text)
    ensures |t| == |s|
    ensures forall i :: 0 <= i < |s| && s[i] < 128 as char ==> t[i] == s[i] as int
  {
    seq(|s|, i requires 0 <= i < |s| => if s[i] < 128 as char then s[i] as int as byte else 0)
  }

  predicate Starts(t: Text, word: Text) {
    |word| <= |t| && t[..|word|] == word
  }

  /** The first word the text starts with. */
  function ReadChoice(words: seq<Text>, t: Text): (r: Option<nat>)
    ensures r.Some? ==> r.value < |words|
  {
    if words == [] then None
    else if Starts(t, words[0]) then Some(0)
    else match ReadChoice(words[1..], t) case None => None case Some(i) => Some(i + 1)
  }

  lemma {:induction false} ChoiceStarts(words: seq<Text>, t: Text)
    requires ReadChoice(words, t).Some?
    ensures Starts(t, words[ReadChoice(words, t).value])
  {
    if !Starts(t, words[0]) {
      ChoiceStarts(words[1..], t);
    }
  }

  /** Two words that differ in one of their first eight letters. */
  predicate Apart(a: Text, b: Text) {
    || (|a| > 0 && |b| > 0 && a[0] != b[0])
    || (|a| > 1 && |b| > 1 && a[1] != b[1])
    || (|a| > 2 && |b| > 2 && a[2] != b[2])
    || (|a| > 3 && |b| > 3 && a[3] != b[3])
    || (|a| > 4 && |b| > 4 && a[4] != b[4])
    || (|a| > 5 && |b| > 5 && a[5] != b[5])
    || (|a| > 6 && |b| > 6 && a[6] != b[6])
    || (|a| > 7 && |b| > 7 && a[7] != b[7])
  }

  /** No word is the start of another. */
  ghost predicate PrefixFree(words: seq<Text>) {
    forall i, j :: 0 <= i < j < |words| ==> Apart(words[i], words[j])
  }

  /** Of a prefix-free table every word is found, whatever follows it. */
  lemma {:induction false} ChoiceReads(words: seq<Text>, i: nat, tail: Text)
    requires PrefixFree(words) && i < |words|
    ensures ReadChoice(words, words[i] + tail) == Some(i)
  {
    var t := words[i] + tail;
    if i == 0 {
      assert t[..|words[0]|] == words[0];
    } else {
      assert Apart(words[0], words[i]);
      ChoiceReads(words[1..], i - 1, tail);
    }
  }

  lemma {:induction false} PrefixFreeJoin(a: seq<Text>, b: seq<Text>)
    requires PrefixFree(a) && PrefixFree(b)
    requires forall i, j :: 0 <= i < |a| && 0 <= j < |b| ==> Apart(a[i], b[j])
    ensures PrefixFree(a + b)
  {
  }
}
