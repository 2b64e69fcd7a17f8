/**
 * Map search predicates (src/lib/ddnet/searches.ts). `checkMapName` walks the map
 * name once to collect its initials and its text without separators, walks the search
 * once to drop its separators, and then accepts on any of three tests; `checkMapper`
 * either compares a quoted search against each listed mapper or looks for the search
 * inside the mapper text.
 */
module Searches {
  import opened Common
  import opened JsText

  predicate IsUpper(c: char) { 'A' <= c <= 'Z' }
  predicate IsLowerLetter(c: char) { 'a' <= c <= 'z' }
  predicate IsDigitOrDot(c: char) { '0' <= c <= '9' || c == '.' }
  predicate IsSeparator(c: char) { c == '-' || c == '_' || c == ' ' }

  /**
   * Character `i` of `name` starts a word: an upper-case letter after a character that
   * is not upper case, any letter at the start or after a separator, and every digit
   * or dot.
   */
  predicate Taken(name: string, i: nat)
    requires i < |name|
  {
    var c := name[i];
    var afterUpper := i > 0 && IsUpper(name[i - 1]);
    var afterSeparator := i == 0 || IsSeparator(name[i - 1]);
    if IsUpper(c) then !afterUpper || afterSeparator
    else if IsLowerLetter(c) then afterSeparator
    else IsDigitOrDot(c)
  }

  /** The initials of the first `n` characters of `name`. */
  function InitialsUpTo(name: string, n: nat): string
    requires n <= |name|
  {
    if n == 0 then [] else InitialsUpTo(name, n - 1) + (if Taken(name, n - 1) then [name[n - 1]] else [])
  }

  function Initials(name: string): string {
    InitialsUpTo(name, |name|)
  }

  /** `s` without '-', '_' and ' '. */
  function StripSeparators(s: string): string {
    if s == [] then []
    else StripSeparators(s[..|s| - 1]) + (if IsSeparator(s[|s| - 1]) then [] else [s[|s| - 1]])
  }

  /** What `checkMapName(name, search)` decides. */
  predicate MapNameMatches(lower: Lower, name: string, search: string) {
    || search == []
    || IsPrefix(lower(StripSeparators(search)), lower(Initials(name)))
    || Contains(lower(StripSeparators(name)), lower(StripSeparators(search)))
    || Contains(lower(name), lower(search))
  }

  /** `checkMapName(name, search)`, with its two character loops. */
  method CheckMapName(lower: Lower, name: string, search: string) returns (matched: bool)
    ensures matched == MapNameMatches(lower, name, search)
    ensures search == [] ==> matched
    ensures Contains(lower(name), lower(search)) ==> matched
  {
    if search == [] {
      return true;
    }
    var mapInitial := "";
    var mapNameNoSeparator := "";
    var prevIsUpper := false;
    var prevIsSeparator := true;
    for i := 0 to |name|
      invariant mapInitial == InitialsUpTo(name, i)
      invariant mapNameNoSeparator == StripSeparators(name[..i])
      invariant prevIsUpper == (i > 0 && IsUpper(name[i - 1]))
      invariant prevIsSeparator == (i == 0 || IsSeparator(name[i - 1]))
    {
      var c := name[i];
      var isUpper := IsUpper(c);
      var isLetter := isUpper || IsLowerLetter(c);
      var isSeparator := IsSeparator(c);
      var isNumber := IsDigitOrDot(c);
      if isUpper {
        if !prevIsUpper || prevIsSeparator {
          mapInitial := mapInitial + [c];
        }
      } else if isLetter {
        if prevIsSeparator {
          mapInitial := mapInitial + [c];
        }
      } else if isNumber {
        mapInitial := mapInitial + [c];
      }
      prevIsUpper := isUpper;
      prevIsSeparator := isSeparator;
      if !isSeparator {
        mapNameNoSeparator := mapNameNoSeparator + [c];
      }
      assert name[..i + 1][..i] == name[..i];
    }
    assert name[..|name|] == name;
    var searchNoSeparator := StripLoop(search);
    matched := IsPrefix(lower(searchNoSeparator), lower(mapInitial))
      || Contains(lower(mapNameNoSeparator), lower(searchNoSeparator))
      || Contains(lower(name), lower(search));
  }

  /** The loop over the search that keeps every character but the separators. */
  method StripLoop(s: string) returns (r: string)
    ensures r == StripSeparators(s)
  {
    r := "";
    for i := 0 to |s|
      invariant r == StripSeparators(s[..i])
    {
      if !IsSeparator(s[i]) {
        r := r + [s[i]];
      }
      assert s[..i + 1][..i] == s[..i];
    }
    assert s[..|s|] == s;
  }

  /** Dropping separators distributes over concatenation. */
  lemma {:induction false} StripAppend(a: string, b: string)
    ensures StripSeparators(a + b) == StripSeparators(a) + StripSeparators(b)
  {
    if b != [] {
      var b' := b[..|b| - 1];
      StripAppend(a, b');
      assert (a + b)[..|a + b| - 1] == a + b';
    } else {
      assert a + b == a;
    }
  }

  /** The result has no separator and keeps every other character in order. */
  lemma {:induction false} StripKeepsOthers(s: string)
    ensures forall k :: 0 <= k < |StripSeparators(s)| ==> !IsSeparator(StripSeparators(s)[k])
    ensures |StripSeparators(s)| + CountSeparators(s) == |s|
  {
    if s != [] {
      StripKeepsOthers(s[..|s| - 1]);
    }
  }

  function CountSeparators(s: string): nat {
    if s == [] then 0 else CountSeparators(s[..|s| - 1]) + (if IsSeparator(s[|s| - 1]) then 1 else 0)
  }

  /** A search found verbatim in a name is still found once both lose their separators. */
  lemma StripKeepsContainment(name: string, search: string)
    requires Contains(name, search)
    ensures Contains(StripSeparators(name), StripSeparators(search))
  {
    var i :| 0 <= i <= |name| - |search| && IsPrefix(search, name[i..]);
    var before, after := name[..i], name[i + |search|..];
    SplitAround(name, search, i);
    StripAppend(before + search, after);
    StripAppend(before, search);
    ContainsMiddle(StripSeparators(before), StripSeparators(search), StripSeparators(after));
  }

  /** A name that holds `search` at `i` is what precedes it, the search and what follows. */
  lemma SplitAround(name: string, search: string, i: int)
    requires 0 <= i <= |name| - |search| && IsPrefix(search, name[i..])
    ensures name == name[..i] + search + name[i + |search|..]
  {
    assert name[i..][..|search|] == name[i..i + |search|];
  }

  /** A string contains its middle part. */
  lemma ContainsMiddle(a: string, b: string, c: string)
    ensures Contains(a + b + c, b)
  {
    var s := a + b + c;
    assert s[|a|..][..|b|] == b;
  }

  /** A search made only of separators matches every map. */
  lemma {:induction false} SeparatorSearchMatchesAll(lower: Lower, name: string, search: string)
    requires lower([]) == []
    requires forall k :: 0 <= k < |search| ==> IsSeparator(search[k])
    ensures MapNameMatches(lower, name, search)
  {
    NoOthers(search);
    assert IsPrefix([], lower(Initials(name)));
  }

  lemma {:induction false} NoOthers(s: string)
    requires forall k :: 0 <= k < |s| ==> IsSeparator(s[k])
    ensures StripSeparators(s) == []
  {
    if s != [] {
      NoOthers(s[..|s| - 1]);
    }
  }

  /** Initials are letters, digits or dots. */
  lemma {:induction false} InitialsAreWordChars(name: string, n: nat)
    requires n <= |name|
    ensures forall k :: 0 <= k < |InitialsUpTo(name, n)| ==>
      var c := InitialsUpTo(name, n)[k]; IsUpper(c) || IsLowerLetter(c) || IsDigitOrDot(c)
  {
    if n > 0 {
      InitialsAreWordChars(name, n - 1);
    }
  }

  /** Every digit and dot of the name is an initial. */
  lemma {:induction false} InitialsKeepDigits(name: string, n: nat)
    requires n <= |name|
    ensures CountDigits(InitialsUpTo(name, n)) == CountDigits(name[..n])
  {
    if n > 0 {
      InitialsKeepDigits(name, n - 1);
      var t := if Taken(name, n - 1) then [name[n - 1]] else [];
      CountDigitsAppend(InitialsUpTo(name, n - 1), t);
      DigitTaken(name, n - 1);
      CountDigitsStep(name, n);
    }
  }

  /** A digit or dot is always taken, and a character that is not one adds no digit. */
  lemma DigitTaken(name: string, i: nat)
    requires i < |name|
    ensures CountDigits(if Taken(name, i) then [name[i]] else []) == if IsDigitOrDot(name[i]) then 1 else 0
  {
    assert CountDigits([name[i]]) == if IsDigitOrDot(name[i]) then 1 else 0 by {
      assert [name[i]][..0] == [];
    }
  }

  /** Counting over one more character of the name. */
  lemma CountDigitsStep(name: string, n: nat)
    requires 0 < n <= |name|
    ensures CountDigits(name[..n]) == CountDigits(name[..n - 1]) + if IsDigitOrDot(name[n - 1]) then 1 else 0
  {
    assert name[..n][..n - 1] == name[..n - 1];
  }

  function CountDigits(s: string): nat {
    if s == [] then 0 else CountDigits(s[..|s| - 1]) + (if IsDigitOrDot(s[|s| - 1]) then 1 else 0)
  }

  lemma {:induction false} CountDigitsAppend(a: string, b: string)
    requires |b| <= 1
    ensures CountDigits(a + b) == CountDigits(a) + CountDigits(b)
  {
    if b != [] {
      assert (a + b)[..|a + b| - 1] == a;
    } else {
      assert a + b == a;
    }
  }

  /** `mapper || '不详'`: a missing or empty mapper reads as "unknown". */
  function MapperText(mapper: Option<string>): string {
    if mapper.None? || mapper.value == [] then "不详" else mapper.value
  }

  /** `search.startsWith('"') && search.endsWith('"')`; a lone quote counts. */
  predicate IsQuoted(search: string) {
    |search| >= 1 && search[0] == '"' && search[|search| - 1] == '"'
  }

  /** `search.slice(1, -1)`. */
  function Unquoted(search: string): string {
    if |search| < 2 then [] else search[1..|search| - 1]
  }

  /** The mapper text split on ',' and then on '&', before trimming. */
  function RawMappers(text: string): seq<string> {
    var byComma := Split(text, ',');
    Flatten(seq(|byComma|, k requires 0 <= k < |byComma| => Split(byComma[k], '&')))
  }

  /** The listed mappers: the pieces of `RawMappers`, trimmed. */
  function Mappers(text: string): (ms: seq<string>)
    ensures |ms| == |RawMappers(text)|
  {
    var raw := RawMappers(text);
    seq(|raw|, k requires 0 <= k < |raw| => Trim(raw[k]))
  }

  /** `checkMapper(mapper, search)`. */
  function CheckMapper(lower: Lower, mapper: Option<string>, search: string): (r: bool)
    ensures search == [] ==> r
    ensures search != [] && IsQuoted(search) ==>
      (r <==> (exists k :: 0 <= k < |Mappers(MapperText(mapper))|
                           && lower(Mappers(MapperText(mapper))[k]) == lower(Unquoted(search))))
    ensures search != [] && !IsQuoted(search) ==>
      (r <==> Contains(lower(MapperText(mapper)), lower(search)))
  {
    if search == [] then true
    else
      var text := MapperText(mapper);
      if IsQuoted(search) then
        var ms := Mappers(text);
        exists k :: 0 <= k < |ms| && lower(ms[k]) == lower(Unquoted(search))
      else
        Contains(lower(text), lower(search))
  }

  /** Mapper names as the field lists them: non-empty, trimmed, without ',' or '&'. */
  predicate CleanNames(names: seq<string>) {
    forall k :: 0 <= k < |names| ==>
      names[k] != [] && ',' !in names[k] && '&' !in names[k]
      && !IsJsSpace(names[k][0]) && !IsJsSpace(names[k][|names[k]| - 1])
  }

  /** The raw pieces of clean names joined with ',' are those names. */
  lemma {:induction false} RawMappersOfJoin(names: seq<string>)
    requires |names| >= 1 && CleanNames(names)
    ensures RawMappers(Join(names, ',')) == names
  {
    JoinSplit(names, ',');
    var parts := seq(|names|, k requires 0 <= k < |names| => Split(names[k], '&'));
    forall k | 0 <= k < |names|
      ensures parts[k] == [names[k]]
    {
      JoinSplit([names[k]], '&');
    }
    FlattenSingletons(parts, names);
  }

  /** The mappers of clean names joined with ',' are those names, in order. */
  lemma {:induction false} MappersOfJoin(names: seq<string>)
    requires |names| >= 1 && CleanNames(names)
    ensures Mappers(Join(names, ',')) == names
  {
    RawMappersOfJoin(names);
    var ms := Mappers(Join(names, ','));
    forall k | 0 <= k < |names|
      ensures ms[k] == names[k]
    {
      TrimmedAlready(names[k]);
    }
  }

  /**
   * A quoted search matches a joined list of clean names exactly when it equals
   * one of them, ignoring case.
   */
  lemma {:induction false} CheckMapperExact(lower: Lower, names: seq<string>, n: string)
    requires |names| >= 1 && CleanNames(names)
    ensures CheckMapper(lower, Some(Join(names, ',')), "\"" + n + "\"")
        <==> exists k :: 0 <= k < |names| && lower(names[k]) == lower(n)
  {
    var text := Join(names, ',');
    assert text != [] by {
      if |names| > 1 {
        assert text == names[0] + [','] + Join(names[1..], ',');
      }
    }
    var search := "\"" + n + "\"";
    assert IsQuoted(search) && Unquoted(search) == n;
    MappersOfJoin(names);
  }

  /** Each listed name, quoted, finds the mapper field that lists it. */
  lemma ListedMapperFound(lower: Lower, names: seq<string>, k: nat)
    requires |names| >= 1 && CleanNames(names) && k < |names|
    ensures CheckMapper(lower, Some(Join(names, ',')), "\"" + names[k] + "\"")
  {
    CheckMapperExact(lower, names, names[k]);
  }

  /** Each listed mapper is free of ',' and '&' and of surrounding white space. */
  lemma MappersClean(text: string)
    ensures forall k :: 0 <= k < |Mappers(text)| ==>
      var m := Mappers(text)[k];
      ',' !in m && '&' !in m && (m != [] ==> !IsJsSpace(m[0]) && !IsJsSpace(m[|m| - 1]))
  {
    var byComma := Split(text, ',');
    SplitSeparatorFree(text, ',');
    var parts := seq(|byComma|, k requires 0 <= k < |byComma| => Split(byComma[k], '&'));
    forall k | 0 <= k < |byComma|
      ensures forall l :: 0 <= l < |parts[k]| ==> ',' !in parts[k][l] && '&' !in parts[k][l]
    {
      SplitSeparatorFree(byComma[k], '&');
      forall l | 0 <= l < |parts[k]|
        ensures ',' !in parts[k][l]
      {
        SubSplitKeeps(byComma[k], '&', ',', l);
      }
    }
    FlattenAll(parts);
    var raw := RawMappers(text);
    forall k | 0 <= k < |raw|
      ensures ',' !in Trim(raw[k]) && '&' !in Trim(raw[k])
    {
      TrimSplits(raw[k]);
    }
  }

  /** A piece of a split keeps only characters of the string that was split. */
  lemma {:induction false} SubSplitKeeps(s: string, sep: char, c: char, l: nat)
    requires c !in s
    requires l < |Split(s, sep)|
    ensures c !in Split(s, sep)[l]
  {
    if s != [] {
      var rest := Split(s[1..], sep);
      assert c !in s[1..];
      if s[0] == sep {
        if l > 0 { SubSplitKeeps(s[1..], sep, c, l - 1); }
      } else if l == 0 {
        SubSplitKeeps(s[1..], sep, c, 0);
      } else {
        SubSplitKeeps(s[1..], sep, c, l);
      }
    }
  }

  /** A property every piece of every group has, every piece of the flattening has. */
  lemma {:induction false} FlattenAll(xss: seq<seq<string>>)
    requires forall k, l :: 0 <= k < |xss| && 0 <= l < |xss[k]| ==> ',' !in xss[k][l] && '&' !in xss[k][l]
    ensures forall m :: 0 <= m < |Flatten(xss)| ==> ',' !in Flatten(xss)[m] && '&' !in Flatten(xss)[m]
  {
    if xss != [] {
      var init := xss[..|xss| - 1];
      assert forall k :: 0 <= k < |init| ==> init[k] == xss[k];
      FlattenAll(init);
    }
  }
}
