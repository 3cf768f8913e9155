/** The display name of the application (`AppInfo::full_name` in
    src/cli/main.rs): the package name with its first letter and the first
    letter after each `'_'` or `'-'` upper-cased, the separators turned into
    spaces. */
module AppInfo {

  /** A word separator of the package name. */
  predicate IsSeparator(c: char) {
    c == '_' || c == '-'
  }

  /** The upper-case form of `c`, for ASCII letters; every other character
      is its own upper-case form here. */
  function Upper(c: char): (u: char)
    ensures 'a' <= c <= 'z' ==> 'A' <= u <= 'Z' && u as int - c as int == 'A' as int - 'a' as int
    ensures !('a' <= c <= 'z') ==> u == c
  {
    if 'a' <= c <= 'z' then (c as int - 'a' as int + 'A' as int) as char else c
  }

  /** Whether the loop is in capitalising mode when it reaches `name[i]`:
      at the start, and right after a separator that was turned into a
      space. */
  function Capital(name: string, i: nat): bool
    requires i <= |name|
  {
    if i == 0 then true else !Capital(name, i - 1) && IsSeparator(name[i - 1])
  }

  /** The character the loop emits for `name[i]`: upper-cased in
      capitalising mode (separators included), a space for a separator
      otherwise, else the character itself. */
  function Shown(name: string, i: nat): char
    requires i < |name|
  {
    if Capital(name, i) then Upper(name[i])
    else if IsSeparator(name[i]) then ' '
    else name[i]
  }

  /** `AppInfo::full_name` applied to the package name `name`. */
  method FullName(name: string) returns (full: string)
    ensures |full| == |name|
    ensures forall i :: 0 <= i < |name| ==> full[i] == Shown(name, i)
  {
    full := [];
    var nextIsCapital := true;
    for i := 0 to |name|
      invariant |full| == i && nextIsCapital == Capital(name, i)
      invariant forall k :: 0 <= k < i ==> full[k] == Shown(name, k)
    {
      var c := name[i];
      if nextIsCapital {
        full := full + [Upper(c)];
        nextIsCapital := false;
      } else if IsSeparator(c) {
        full := full + [' '];
        nextIsCapital := true;
      } else {
        full := full + [c];
      }
    }
  }

  /** A separator is turned into a space exactly when it does not directly
      follow the start or another such separator; a separator in
      capitalising mode is kept as it is. */
  lemma SeparatorShown(name: string, i: nat)
    requires i < |name| && IsSeparator(name[i])
    ensures Shown(name, i) == (if Capital(name, i) then name[i] else ' ')
    ensures Capital(name, i + 1) <==> !Capital(name, i)
  {
  }

  /** Capitalising mode never lasts two characters in a row: the character
      after an upper-cased one is never upper-cased. */
  lemma NoTwoCapitals(name: string, i: nat)
    requires i < |name| && Capital(name, i)
    ensures !Capital(name, i + 1)
  {
  }

  /** A name without separators comes out with only its first character
      changed, and that one upper-cased. */
  lemma {:induction false} NoSeparators(name: string, i: nat)
    requires i < |name| && forall k :: 0 <= k < |name| ==> !IsSeparator(name[k])
    ensures Shown(name, i) == if i == 0 then Upper(name[0]) else name[i]
    ensures Capital(name, i) <==> i == 0
    decreases i
  {
    if i > 0 {
      NoSeparators(name, i - 1);
    }
  }

  /** Every character that is not a separator is either copied or
      upper-cased; nothing else changes it. */
  lemma LettersKept(name: string, i: nat)
    requires i < |name| && !IsSeparator(name[i])
    ensures Shown(name, i) == name[i] || (Capital(name, i) && Shown(name, i) == Upper(name[i]))
  {
  }
}
