/** The tutorial's fixed content: the 26-letter alphabet and the CVC
    (consonant-vowel-consonant) words used for blending practice. */
module Catalog {
  import Letters

  datatype LetterEntry = LetterEntry(letter: char, sound: string, phonetic: string, example: string, color: string)

  /** `sounds` spells the word one letter at a time; `meaning` is the picture shown with it. */
  datatype WordEntry = WordEntry(word: string, sounds: seq<string>, meaning: string)

  const Alphabet: seq<LetterEntry> := [
    LetterEntry('A', "ay", "/eɪ/", "Apple", "#E74C3C"),
    LetterEntry('B', "buh", "/b/", "Ball", "#3498DB"),
    LetterEntry('C', "kuh", "/k/", "Cat", "#F39C12"),
    LetterEntry('D', "duh", "/d/", "Dog", "#27AE60"),
    LetterEntry('E', "eh", "/ɛ/", "Elephant", "#9B59B6"),
    LetterEntry('F', "fuh", "/f/", "Fish", "#E67E22"),
    LetterEntry('G', "guh", "/g/", "Goat", "#1ABC9C"),
    LetterEntry('H', "huh", "/h/", "Hat", "#E91E63"),
    LetterEntry('I', "ih", "/ɪ/", "Ice", "#2196F3"),
    LetterEntry('J', "juh", "/dʒ/", "Jump", "#FF5722"),
    LetterEntry('K', "kuh", "/k/", "Kite", "#795548"),
    LetterEntry('L', "luh", "/l/", "Lion", "#607D8B"),
    LetterEntry('M', "muh", "/m/", "Mouse", "#FF9800"),
    LetterEntry('N', "nuh", "/n/", "Nose", "#4CAF50"),
    LetterEntry('O', "oh", "/oʊ/", "Orange", "#FF6B35"),
    LetterEntry('P', "puh", "/p/", "Pig", "#8E24AA"),
    LetterEntry('Q', "kwuh", "/kw/", "Queen", "#D32F2F"),
    LetterEntry('R', "ruh", "/r/", "Rabbit", "#1976D2"),
    LetterEntry('S', "sss", "/s/", "Sun", "#F57C00"),
    LetterEntry('T', "tuh", "/t/", "Tiger", "#388E3C"),
    LetterEntry('U', "uh", "/ʌ/", "Umbrella", "#7B1FA2"),
    LetterEntry('V', "vuh", "/v/", "Van", "#C2185B"),
    LetterEntry('W', "wuh", "/w/", "Water", "#0097A7"),
    LetterEntry('X', "ks", "/ks/", "X-ray", "#5D4037"),
    LetterEntry('Y', "yuh", "/j/", "Yellow", "#FBC02D"),
    LetterEntry('Z', "zuh", "/z/", "Zebra", "#455A64")
  ]

  const CvcWords: seq<WordEntry> := [
    WordEntry("CAT", ["C", "A", "T"], "🐱"),
    WordEntry("DOG", ["D", "O", "G"], "🐶"),
    WordEntry("SUN", ["S", "U", "N"], "☀️"),
    WordEntry("BAT", ["B", "A", "T"], "🦇"),
    WordEntry("HAT", ["H", "A", "T"], "👒"),
    WordEntry("PIG", ["P", "I", "G"], "🐷"),
    WordEntry("BUG", ["B", "U", "G"], "🐛"),
    WordEntry("CUP", ["C", "U", "P"], "☕")
  ]

  /** The letters of the first `n` catalogue entries, as `alphabet.slice(0, n)` lists them. */
  function LettersOf(entries: seq<LetterEntry>): (s: seq<char>)
    ensures |s| == |entries|
    ensures forall i :: 0 <= i < |entries| ==> s[i] == entries[i].letter
  {
    if entries == [] then [] else [entries[0].letter] + LettersOf(entries[1..])
  }

  /** The word produced by sounding out its parts one after another. */
  function Blend(parts: seq<string>): string {
    if parts == [] then "" else parts[0] + Blend(parts[1..])
  }

  predicate IsVowel(c: char) {
    c in "AEIOU"
  }

  /** Entry `i` of the alphabet is the `i`-th capital letter. */
  predicate InAlphabetOrder(entries: seq<LetterEntry>) {
    forall i :: 0 <= i < |entries| ==> entries[i].letter as int == 'A' as int + i
  }

  /** A consonant, a vowel and a consonant, one capital per sound. */
  predicate IsCvcPattern(sounds: seq<string>) {
    && |sounds| == 3
    && |sounds[0]| == 1 && |sounds[1]| == 1 && |sounds[2]| == 1
    && Letters.IsUpper(sounds[0][0]) && Letters.IsUpper(sounds[1][0]) && Letters.IsUpper(sounds[2][0])
    && !IsVowel(sounds[0][0]) && IsVowel(sounds[1][0]) && !IsVowel(sounds[2][0])
  }

  /** The alphabet has the 26 letters A to Z, in order. */
  lemma AlphabetIsComplete()
    ensures |Alphabet| == 26 && InAlphabetOrder(Alphabet)
    ensures Alphabet[0].letter == 'A' && Alphabet[25].letter == 'Z'
  {
  }

  /** Every entry's example word starts with its letter. */
  lemma AlphabetExamplesStartWithLetter()
    ensures forall i :: 0 <= i < |Alphabet| ==> |Alphabet[i].example| > 0 && Alphabet[i].example[0] == Alphabet[i].letter
  {
  }

  /** Every entry has a sound and a phonetic form written between slashes. */
  lemma AlphabetPhoneticsWellFormed()
    ensures forall i :: 0 <= i < |Alphabet| ==>
              && |Alphabet[i].sound| > 0
              && |Alphabet[i].phonetic| >= 3 && Alphabet[i].phonetic[0] == '/'
              && Alphabet[i].phonetic[|Alphabet[i].phonetic| - 1] == '/'
  {
  }

  /** No letter appears twice in the alphabet. */
  lemma AlphabetLettersUnique(i: int, j: int)
    requires 0 <= i < |Alphabet| && 0 <= j < |Alphabet|
    ensures Alphabet[i].letter == Alphabet[j].letter <==> i == j
  {
    AlphabetIsComplete();
  }

  /** Every blending word is spelled exactly by its sounds, one letter each. */
  lemma CvcWordsSpellTheirWords()
    ensures |CvcWords| == 8
    ensures forall i :: 0 <= i < |CvcWords| ==> Blend(CvcWords[i].sounds) == CvcWords[i].word && |CvcWords[i].word| == 3
  {
    forall i | 0 <= i < |CvcWords| ensures Blend(CvcWords[i].sounds) == CvcWords[i].word {
      var s := CvcWords[i].sounds;
      BlendOfThree(s[0], s[1], s[2]);
      assert s == [s[0], s[1], s[2]];
    }
  }

  lemma BlendOfThree(a: string, b: string, c: string)
    ensures Blend([a, b, c]) == a + b + c
  {
    assert [a, b, c][1..] == [b, c];
    assert [b, c][1..] == [c];
    assert [c][1..] == [];
    assert Blend([c]) == c + "" == c;
  }

  /** Every blending word is consonant-vowel-consonant. */
  lemma CvcWordsAreCvc()
    ensures forall i :: 0 <= i < |CvcWords| ==> IsCvcPattern(CvcWords[i].sounds)
  {
  }

  /** No blending word appears twice, so looking a word up finds one entry. */
  lemma CvcWordsUnique(i: int, j: int)
    requires 0 <= i < |CvcWords| && 0 <= j < |CvcWords|
    ensures CvcWords[i].word == CvcWords[j].word <==> i == j
  {
  }
}
