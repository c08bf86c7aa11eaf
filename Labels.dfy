/** The display labels of the risk-factor tables: a feature column name with every
    underscore replaced by a space, then title-cased. Letters are the ASCII letters;
    every other character is uncased and left as it is. */
module Labels {

  predicate IsUpper(c: char)
  {
    'A' <= c <= 'Z'
  }

  predicate IsLower(c: char)
  {
    'a' <= c <= 'z'
  }

  /** The cased characters of this model: the ASCII letters. */
  predicate IsCased(c: char)
  {
    IsUpper(c) || IsLower(c)
  }

  /** Upper-case of a letter; every other character is unchanged. */
  function ToUpper(c: char): (u: char)
    ensures IsCased(c) ==> IsUpper(u)
    ensures IsCased(u) <==> IsCased(c)
    ensures !IsLower(c) ==> u == c
    ensures c == ToLower(u) || c == u
  {
    if IsLower(c) then (c as int - 32) as char else c
  }

  /** Lower-case of a letter; every other character is unchanged. */
  function ToLower(c: char): (l: char)
    ensures IsCased(c) ==> IsLower(l)
    ensures IsCased(l) <==> IsCased(c)
    ensures !IsUpper(c) ==> l == c
  {
    if IsUpper(c) then (c as int + 32) as char else c
  }

  /** `str.replace("_", " ")`: every underscore becomes a space, every other
      character stays where it is. */
  function ReplaceUnderscores(s: string): (r: string)
    ensures |r| == |s|
    ensures forall i :: 0 <= i < |s| ==> r[i] == if s[i] == '_' then ' ' else s[i]
  {
    if |s| == 0 then ""
    else [if s[0] == '_' then ' ' else s[0]] + ReplaceUnderscores(s[1..])
  }

  /** The title-case of one character: lower-case right after a cased character,
      upper-case otherwise (uncased characters are unchanged either way). */
  function TitleChar(c: char, afterCased: bool): char
  {
    if afterCased then ToLower(c) else ToUpper(c)
  }

  /** Title-case of `s` when the character before it is cased exactly if
      `afterCased` holds. */
  function TitleFrom(s: string, afterCased: bool): (r: string)
    ensures |r| == |s|
  {
    if |s| == 0 then ""
    else [TitleChar(s[0], afterCased)] + TitleFrom(s[1..], IsCased(s[0]))
  }

  /** `str.title()`: every run of letters starts upper-case and continues lower-case. */
  function Title(s: string): (r: string)
    ensures |r| == |s|
  {
    TitleFrom(s, false)
  }

  /** Character `i` of TitleFrom depends only on character `i` and on whether the
      character before it is cased. */
  lemma {:induction false} TitleFromAt(s: string, afterCased: bool, i: nat)
    requires i < |s|
    ensures TitleFrom(s, afterCased)[i] == TitleChar(s[i], if i == 0 then afterCased else IsCased(s[i - 1]))
  {
    if i > 0 {
      TitleFromAt(s[1..], IsCased(s[0]), i - 1);
    }
  }

  /** What `str.title()` does to each character: a letter that starts a word (first
      character, or right after an uncased one) becomes upper-case, a letter inside a
      word becomes lower-case, every other character is unchanged, and each letter
      stays the same letter. */
  lemma TitleAt(s: string)
    ensures |Title(s)| == |s|
    ensures forall i :: 0 <= i < |s| ==>
              && (IsCased(s[i]) && (i == 0 || !IsCased(s[i - 1])) ==> IsUpper(Title(s)[i]))
              && (IsCased(s[i]) && i > 0 && IsCased(s[i - 1]) ==> IsLower(Title(s)[i]))
              && (!IsCased(s[i]) ==> Title(s)[i] == s[i])
              && ToLower(Title(s)[i]) == ToLower(s[i])
  {
    forall i | 0 <= i < |s|
      ensures && (IsCased(s[i]) && (i == 0 || !IsCased(s[i - 1])) ==> IsUpper(Title(s)[i]))
              && (IsCased(s[i]) && i > 0 && IsCased(s[i - 1]) ==> IsLower(Title(s)[i]))
              && (!IsCased(s[i]) ==> Title(s)[i] == s[i])
              && ToLower(Title(s)[i]) == ToLower(s[i])
    {
      TitleFromAt(s, false, i);
    }
  }

  /** Title-casing text that is already title-cased changes nothing. */
  lemma TitleIdempotent(s: string)
    ensures Title(Title(s)) == Title(s)
  {
    var t := Title(s);
    forall i | 0 <= i < |s|
      ensures Title(t)[i] == t[i]
    {
      TitleFromAt(s, false, i);
      TitleFromAt(t, false, i);
      if i > 0 {
        TitleFromAt(s, false, i - 1);
      }
    }
  }

  /** The label shown for a column name. */
  function Label(name: string): (l: string)
    ensures |l| == |name|
  {
    Title(ReplaceUnderscores(name))
  }

  /** A label keeps the length of its column name, holds no underscore, has a space
      exactly where the name has an underscore or a space, and spells the name's
      letters in title case. */
  lemma LabelShape(name: string)
    ensures |Label(name)| == |name|
    ensures '_' !in Label(name)
    ensures forall i :: 0 <= i < |name| ==> (Label(name)[i] == ' ' <==> name[i] == '_' || name[i] == ' ')
    ensures Title(Label(name)) == Label(name)
  {
    var r := ReplaceUnderscores(name);
    TitleAt(r);
    TitleIdempotent(r);
    forall i | 0 <= i < |name|
      ensures Label(name)[i] != '_'
      ensures Label(name)[i] == ' ' <==> name[i] == '_' || name[i] == ' '
    {
      if IsCased(r[i]) {
        assert ToLower(Label(name)[i]) == ToLower(r[i]);
      }
    }
  }
}
