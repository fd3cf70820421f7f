/** Character classes and the case mapping the tutorial applies to its letters
    (`String.prototype.toLowerCase` on the single letters of the catalogue). */
module Letters {

  predicate IsUpper(c: char) {
    'A' <= c <= 'Z'
  }

  predicate IsLower(c: char) {
    'a' <= c <= 'z'
  }

  /** Lower-case form of a letter: A-Z map to a-z, every other character is kept. */
  function ToLower(c: char): (r: char)
    ensures IsUpper(c) ==> IsLower(r) && r as int - 'a' as int == c as int - 'A' as int
    ensures !IsUpper(c) ==> r == c
  {
    if IsUpper(c) then (c as int - 'A' as int + 'a' as int) as char else c
  }

  /** Two different capitals never share a lower-case form. */
  lemma ToLowerInjectiveOnUpper(c: char, d: char)
    requires IsUpper(c) && IsUpper(d)
    ensures ToLower(c) == ToLower(d) <==> c == d
  {
  }

  /** Lower-casing a capital never yields a capital again, so a lower-case
      slot never compares equal to an unconverted capital by accident. */
  lemma ToLowerOfUpperIsNotUpper(c: char)
    requires IsUpper(c)
    ensures !IsUpper(ToLower(c)) && ToLower(c) != c
  {
  }
}
