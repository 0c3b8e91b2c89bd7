/**
 File flags as text: fflagstostr and strtofflags of Libc/gen/strtofflags.c.  A flags word is a set of
 bits; the named flags are different bits, and names for the same flag share one.
 */
module FFlags {

  datatype Flag =
    | SfAppend | SfArchived | SfImmutable | SfRestricted | SfNounlink
    | UfAppend | UfImmutable | UfNodump | UfOpaque | UfHidden | UfCompressed | UfDatavault | SfDataless
    | Unnamed(bit: nat)

  /** A name starting with "no", its flag, and whether that form is the one that sets the flag. */
  datatype Mapping = Mapping(name: string, flag: Flag, invert: bool)

  const MAPPINGS: nat := 21
  const LONGEST_FLAG_LEN: nat := 12

  function MappingAt(i: nat): (m: Mapping)
    requires i < MAPPINGS
    ensures 2 < |m.name| <= LONGEST_FLAG_LEN + 2 && m.name[..2] == "no" && 0 < |Printed(m)| <= LONGEST_FLAG_LEN
    ensures !m.flag.Unnamed?
  {
    match i
    case 0 => Mapping("nosappnd", SfAppend, false)
    case 1 => Mapping("nosappend", SfAppend, false)
    case 2 => Mapping("noarch", SfArchived, false)
    case 3 => Mapping("noarchived", SfArchived, false)
    case 4 => Mapping("noschg", SfImmutable, false)
    case 5 => Mapping("noschange", SfImmutable, false)
    case 6 => Mapping("nosimmutable", SfImmutable, false)
    case 7 => Mapping("norestricted", SfRestricted, false)
    case 8 => Mapping("nosunlnk", SfNounlink, false)
    case 9 => Mapping("nosunlink", SfNounlink, false)
    case 10 => Mapping("nouappnd", UfAppend, false)
    case 11 => Mapping("nouappend", UfAppend, false)
    case 12 => Mapping("nouchg", UfImmutable, false)
    case 13 => Mapping("nouchange", UfImmutable, false)
    case 14 => Mapping("nouimmutable", UfImmutable, false)
    case 15 => Mapping("nodump", UfNodump, true)
    case 16 => Mapping("noopaque", UfOpaque, false)
    case 17 => Mapping("nohidden", UfHidden, false)
    case 18 => Mapping("nocompressed", UfCompressed, false)
    case 19 => Mapping("nodatavault", UfDatavault, false)
    case _ => Mapping("nodataless", SfDataless, false)
  }

  /** The form of the name that means "set". */
  function Printed(m: Mapping): string
    requires 2 < |m.name|
  {
    if m.invert then m.name else m.name[2..]
  }

  // ----- printing -----

  /** The names that fflagstostr prints for the flags still to be printed, from entry i on. */
  function Names(flags: set<Flag>, i: nat): seq<string>
    requires i <= MAPPINGS
    decreases MAPPINGS - i
  {
    if i == MAPPINGS then []
    else
      var m := MappingAt(i);
      if m.flag in flags then [Printed(m)] + Names(flags - {m.flag}, i + 1) else Names(flags, i + 1)
  }

  function Join(names: seq<string>): string {
    if names == [] then "" else if |names| == 1 then names[0] else names[0] + "," + Join(names[1..])
  }

  function Text(flags: set<Flag>): string {
    Join(Names(flags, 0))
  }

  lemma {:induction false} NamesFrom(flags: set<Flag>, i: nat)
    requires i <= MAPPINGS
    ensures i == MAPPINGS ==> Names(flags, i) == []
    ensures i < MAPPINGS ==>
              var m := MappingAt(i);
              Names(flags, i) ==
                if m.flag in flags then [Printed(m)] + Names(flags - {m.flag}, i + 1) else Names(flags, i + 1)
  {
    hide MappingAt, Printed;
  }

  lemma {:induction false} JoinAppend(names: seq<string>, name: string)
    ensures Join(names + [name]) == (if names == [] then "" else Join(names) + ",") + name
    decreases names
  {
    if |names| > 1 {
      JoinAppend(names[1..], name);
      assert (names + [name])[1..] == names[1..] + [name];
    } else if |names| == 1 {
      assert (names + [name])[1..] == [name];
    }
  }

  method WriteName(buffer: array<char>, start: nat, name: string) returns (dp: nat)
    requires start + |name| <= buffer.Length
    modifies buffer
    ensures dp == start + |name| && buffer[..dp] == old(buffer[..start]) + name
  {
    dp := start;
    for k := 0 to |name|
      invariant dp == start + k <= buffer.Length && buffer[..dp] == old(buffer[..start]) + name[..k]
    {
      buffer[dp] := name[k];
      dp := dp + 1;
    }
    assert name[..|name|] == name;
  }

  /** One more name, after a comma if it is not the first. */
  method AppendName(buffer: array<char>, start: nat, name: string, ghost names: seq<string>) returns (dp: nat)
    requires start + 1 + |name| <= buffer.Length && name != ""
    requires buffer[..start] == Join(names) && (start > 0 <==> names != [])
    modifies buffer
    ensures 0 < dp <= start + (if start > 0 then 1 else 0) + |name| && buffer[..dp] == Join(names + [name])
  {
    hide Join;
    JoinAppend(names, name);
    dp := start;
    if dp > 0 {
      dp := WriteName(buffer, dp, ",");
    }
    dp := WriteName(buffer, dp, name);
  }

  /** fflagstostr: the text is written into a buffer of fixed size, which it always fits. */
  method FflagsToStr(flags: set<Flag>) returns (buffer: array<char>, n: nat)
    ensures n < buffer.Length == MAPPINGS * (LONGEST_FLAG_LEN + 1) && buffer[n] == '\0'
    ensures buffer[..n] == Text(flags)
  {
    hide MappingAt, Printed, Join, Names;
    buffer := new char[MAPPINGS * (LONGEST_FLAG_LEN + 1)];
    var setflags, dp := flags, 0;
    ghost var names: seq<string> := [];
    assert Join(names) == "" by { JoinNone(); }
    for i := 0 to MAPPINGS
      invariant 0 <= dp <= i * (LONGEST_FLAG_LEN + 1) && (i > 0 ==> dp < i * (LONGEST_FLAG_LEN + 1))
      invariant names + Names(setflags, i) == Names(flags, 0)
      invariant buffer[..dp] == Join(names) && (dp > 0 <==> names != [])
    {
      var m := MappingAt(i);
      NamesFrom(setflags, i);
      if m.flag in setflags {
        dp := AppendName(buffer, dp, Printed(m), names);
        setflags := setflags - {m.flag};
        names := names + [Printed(m)];
      }
    }
    NamesFrom(setflags, MAPPINGS);
    assert names == Names(flags, 0);
    buffer[dp] := '\0';
    n := dp;
  }

  lemma {:induction false} JoinNone()
    ensures Join([]) == ""
  {
  }

  // ----- parsing -----

  predicate IsSeparator(c: char) {
    c == '\t' || c == ' ' || c == ','
  }

  /** Where the first separator is, or the length. */
  function TokenEnd(s: string): (n: nat)
    ensures n <= |s| && (n < |s| ==> IsSeparator(s[n]))
    ensures forall i | 0 <= i < n :: !IsSeparator(s[i])
  {
    if s == "" || IsSeparator(s[0]) then 0 else 1 + TokenEnd(s[1..])
  }

  /** The tokens that repeated strsep calls yield; there is always at least one, and tokens may be empty. */
  function Tokens(s: string): (r: seq<string>)
    ensures r != []
    decreases |s|
  {
    var n := TokenEnd(s);
    if n == |s| then [s] else [s[..n]] + Tokens(s[n + 1..])
  }

  /** The entry that a token names, from entry i on; MAPPINGS if there is none. */
  function Lookup(p: string, i: nat): (k: nat)
    requires i <= MAPPINGS
    ensures i <= k <= MAPPINGS
    ensures k < MAPPINGS ==> p == MappingAt(k).name[2..] || p == MappingAt(k).name
    ensures forall j | i <= j < k :: p != MappingAt(j).name[2..] && p != MappingAt(j).name
    decreases MAPPINGS - i
  {
    if i == MAPPINGS || p == MappingAt(i).name[2..] || p == MappingAt(i).name then i else Lookup(p, i + 1)
  }

  datatype Parsed = Parsed(ok: bool, toSet: set<Flag>, toClear: set<Flag>, bad: string)

  /** Does the token at entry k ask for its flag to be set? */
  predicate Sets(p: string, k: nat)
    requires k < MAPPINGS
  {
    (p == MappingAt(k).name[2..]) != MappingAt(k).invert
  }

  /** Tokens one after the other, on top of what has been set and cleared; stops at a token that names nothing. */
  function ParseTokens(tokens: seq<string>, toSet: set<Flag>, toClear: set<Flag>): Parsed
    decreases tokens
  {
    if tokens == [] then Parsed(true, toSet, toClear, "")
    else
      var p := tokens[0];
      var k := Lookup(p, 0);
      if p == "" then ParseTokens(tokens[1..], toSet, toClear)
      else if k == MAPPINGS then Parsed(false, toSet, toClear, p)
      else if Sets(p, k) then ParseTokens(tokens[1..], toSet + {MappingAt(k).flag}, toClear)
      else ParseTokens(tokens[1..], toSet, toClear + {MappingAt(k).flag})
  }

  function Parse(s: string): Parsed {
    ParseTokens(Tokens(s), {}, {})
  }

  /** strsep: the next token, and what follows its separator. */
  method StrSep(s: string) returns (p: string, rest: string, more: bool)
    ensures p == s[..TokenEnd(s)] && more == (TokenEnd(s) < |s|) && rest == if more then s[TokenEnd(s) + 1..] else ""
  {
    var n := 0;
    while n < |s| && !IsSeparator(s[n])
      invariant 0 <= n <= |s| && TokenEnd(s) == n + TokenEnd(s[n..])
    {
      assert s[n..][1..] == s[n + 1..];
      n := n + 1;
    }
    p, more := s[..n], n < |s|;
    rest := if more then s[n + 1..] else "";
  }

  /** The loop over the entries. */
  method Find(p: string) returns (i: nat)
    ensures i == Lookup(p, 0)
  {
    hide MappingAt;
    i := 0;
    while i < MAPPINGS && p != MappingAt(i).name[2..] && p != MappingAt(i).name
      invariant 0 <= i <= MAPPINGS && Lookup(p, 0) == Lookup(p, i)
    {
      i := i + 1;
    }
  }

  /** strtofflags. */
  method StrToFflags(text: string) returns (r: Parsed)
    ensures r == Parse(text)
  {
    hide MappingAt, TokenEnd, Lookup, Sets;
    var rest, more := text, true;
    var toSet: set<Flag>, toClear: set<Flag> := {}, {};
    while more
      invariant Parse(text) ==
                  if more then ParseTokens(Tokens(rest), toSet, toClear) else Parsed(true, toSet, toClear, "")
      decreases |rest| + if more then 1 else 0
    {
      var p;
      ghost var before := rest;
      p, rest, more := StrSep(rest);
      assert Tokens(before)[0] == p && Tokens(before)[1..] == if more then Tokens(rest) else [];
      if p == "" {
        continue;
      }
      var i := Find(p);
      if i == MAPPINGS {
        return Parsed(false, toSet, toClear, p);
      }
      if Sets(p, i) {
        toSet := toSet + {MappingAt(i).flag};
      } else {
        toClear := toClear + {MappingAt(i).flag};
      }
    }
    return Parsed(true, toSet, toClear, "");
  }

  // ----- the round trip -----

  /** Enough of a string to tell the printed names from all other names: its length and first characters. */
  datatype Key = Key(n: nat, a: char, b: char, c: char)

  function KeyOf(s: string): Key
    requires |s| >= 3
  {
    Key(|s|, s[0], s[1], s[2])
  }

  /** The key of entry i without its "no". */
  function ShortKey(i: nat): Key
    requires i < MAPPINGS
  {
    match i
    case 0 => Key(6, 's', 'a', 'p')
    case 1 => Key(7, 's', 'a', 'p')
    case 2 => Key(4, 'a', 'r', 'c')
    case 3 => Key(8, 'a', 'r', 'c')
    case 4 => Key(4, 's', 'c', 'h')
    case 5 => Key(7, 's', 'c', 'h')
    case 6 => Key(10, 's', 'i', 'm')
    case 7 => Key(10, 'r', 'e', 's')
    case 8 => Key(6, 's', 'u', 'n')
    case 9 => Key(7, 's', 'u', 'n')
    case 10 => Key(6, 'u', 'a', 'p')
    case 11 => Key(7, 'u', 'a', 'p')
    case 12 => Key(4, 'u', 'c', 'h')
    case 13 => Key(7, 'u', 'c', 'h')
    case 14 => Key(10, 'u', 'i', 'm')
    case 15 => Key(4, 'd', 'u', 'm')
    case 16 => Key(6, 'o', 'p', 'a')
    case 17 => Key(6, 'h', 'i', 'd')
    case 18 => Key(10, 'c', 'o', 'm')
    case 19 => Key(9, 'd', 'a', 't')
    case _ => Key(8, 'd', 'a', 't')
  }

  function FullKey(i: nat): Key
    requires i < MAPPINGS
  {
    Key(ShortKey(i).n + 2, 'n', 'o', ShortKey(i).a)
  }

  /** The keys of entry i are right. */
  predicate KeyRight(i: nat)
    requires i < MAPPINGS
  {
    var m := MappingAt(i);
    && |m.name| >= 6 && KeyOf(m.name[2..]) == ShortKey(i) && KeyOf(m.name) == FullKey(i)
    && m.invert == (i == 15)
  }

  lemma {:induction false} LowKeys(i: nat)
    requires i < 7
    ensures KeyRight(i)
  {
  }

  lemma {:induction false} MiddleKeys(i: nat)
    requires 7 <= i < 14
    ensures KeyRight(i)
  {
  }

  lemma {:induction false} HighKeys(i: nat)
    requires 14 <= i < MAPPINGS
    ensures KeyRight(i)
  {
  }

  lemma {:induction false} KeysAre(i: nat)
    requires i < MAPPINGS
    ensures KeyRight(i)
  {
    hide KeyRight;
    if i < 7 {
      LowKeys(i);
    } else if i < 14 {
      MiddleKeys(i);
    } else {
      HighKeys(i);
    }
  }

  lemma {:induction false} KeysDiffer(j: nat, k: nat)
    requires j < k < MAPPINGS
    ensures var key := if k == 15 then FullKey(k) else ShortKey(k);
            key != ShortKey(j) && key != FullKey(j)
  {
  }

  /** What is printed for an entry is read as that entry, and as setting its flag. */
  lemma {:induction false} PrintedIsRead(k: nat)
    requires k < MAPPINGS
    ensures Lookup(Printed(MappingAt(k)), 0) == k && Sets(Printed(MappingAt(k)), k)
  {
    hide MappingAt, ShortKey, FullKey;
    var p := Printed(MappingAt(k));
    KeysAre(k);
    var i := Lookup(p, 0);
    if i < k {
      KeysAre(i);
      KeysDiffer(i, k);
    }
  }

  // The printed names contain no separators: a few entries at a time.

  lemma {:induction false} FirstNames(i: nat)
    requires 0 <= i < 5
    ensures NoSeparator(Printed(MappingAt(i)))
  {
  }

  lemma {:induction false} SecondNames(i: nat)
    requires 5 <= i < 8
    ensures NoSeparator(Printed(MappingAt(i)))
  {
  }

  lemma {:induction false} MiddleNames(i: nat)
    requires 8 <= i < 10
    ensures NoSeparator(Printed(MappingAt(i)))
  {
  }

  lemma {:induction false} ThirdNames(i: nat)
    requires 10 <= i < 15
    ensures NoSeparator(Printed(MappingAt(i)))
  {
  }

  lemma {:induction false} FourthNames(i: nat)
    requires 15 <= i < 18
    ensures NoSeparator(Printed(MappingAt(i)))
  {
  }

  lemma {:induction false} LastNames(i: nat)
    requires 18 <= i < 21
    ensures NoSeparator(Printed(MappingAt(i)))
  {
  }

  predicate NoSeparator(s: string) {
    forall i | 0 <= i < |s| :: !IsSeparator(s[i])
  }

  lemma {:induction false} NameIsToken(i: nat)
    requires i < MAPPINGS
    ensures NoSeparator(Printed(MappingAt(i))) && Printed(MappingAt(i)) != ""
  {
    hide NoSeparator, Printed;
    if i < 5 {
      FirstNames(i);
    } else if i < 8 {
      SecondNames(i);
    } else if i < 10 {
      MiddleNames(i);
    } else if i < 15 {
      ThirdNames(i);
    } else if i < 18 {
      FourthNames(i);
    } else {
      LastNames(i);
    }
  }

  predicate AreTokens(names: seq<string>) {
    forall i | 0 <= i < |names| :: NoSeparator(names[i])
  }

  lemma {:induction false} EndOfToken(s: string, n: nat)
    requires n <= |s| && NoSeparator(s[..n]) && (n < |s| ==> IsSeparator(s[n]))
    ensures TokenEnd(s) == n
  {
    assert forall i | 0 <= i < n :: s[..n][i] == s[i];
  }

  /** Splitting undoes joining. */
  lemma {:induction false} SplitJoined(names: seq<string>)
    requires AreTokens(names) && names != []
    ensures Tokens(Join(names)) == names
    decreases names
  {
    hide TokenEnd;
    var s := Join(names);
    if |names| == 1 {
      assert s[..|s|] == names[0];
      EndOfToken(s, |s|);
    } else {
      var n := |names[0]|;
      assert s == names[0] + "," + Join(names[1..]);
      assert s[..n] == names[0] && s[n] == ',' && s[n + 1..] == Join(names[1..]);
      EndOfToken(s, n);
      SplitJoined(names[1..]);
      assert names == [names[0]] + names[1..];
    }
  }

  /** The flags that have a name, from entry i on. */
  function Named(i: nat): set<Flag>
    requires i <= MAPPINGS
    decreases MAPPINGS - i
  {
    if i == MAPPINGS then {} else {MappingAt(i).flag} + Named(i + 1)
  }

  lemma {:induction false} NamesAreTokens(flags: set<Flag>, i: nat)
    requires i <= MAPPINGS
    ensures AreTokens(Names(flags, i))
    decreases MAPPINGS - i
  {
    hide MappingAt, NoSeparator, Printed;
    if i < MAPPINGS {
      var m := MappingAt(i);
      NameIsToken(i);
      NamesAreTokens(if m.flag in flags then flags - {m.flag} else flags, i + 1);
    }
  }

  /** Reading the printed names sets the flags that have names, and clears none. */
  lemma {:induction false} ReadNames(flags: set<Flag>, i: nat, toSet: set<Flag>)
    requires i <= MAPPINGS
    ensures ParseTokens(Names(flags, i), toSet, {}) == Parsed(true, toSet + flags * Named(i), {}, "")
    decreases MAPPINGS - i
  {
    hide MappingAt, Printed, Lookup, Sets;
    if i < MAPPINGS {
      var m := MappingAt(i);
      if m.flag in flags {
        PrintedIsRead(i);
        NameIsToken(i);
        var names := Names(flags, i);
        assert names[0] == Printed(m) && names[1..] == Names(flags - {m.flag}, i + 1);
        ReadNames(flags - {m.flag}, i + 1, toSet + {m.flag});
        assert toSet + {m.flag} + (flags - {m.flag}) * Named(i + 1) == toSet + flags * Named(i);
      } else {
        ReadNames(flags, i + 1, toSet);
        assert flags * Named(i + 1) == flags * Named(i);
      }
    }
  }

  /** For every flags word, parsing its text succeeds, sets exactly its named flags and clears none. */
  lemma {:induction false} RoundTrip(flags: set<Flag>)
    ensures Parse(Text(flags)) == Parsed(true, flags * Named(0), {}, "")
  {
    hide Names, Named, AreTokens;
    var names := Names(flags, 0);
    NamesAreTokens(flags, 0);
    ReadNames(flags, 0, {});
    if names == [] {
      assert Tokens("") == [""];
      assert [""][1..] == [];
    } else {
      SplitJoined(names);
    }
  }

  lemma {:induction false} EntryIsNamed(i: nat, k: nat)
    requires i <= k < MAPPINGS
    ensures MappingAt(k).flag in Named(i)
    decreases k - i
  {
    hide MappingAt;
    if i < k {
      EntryIsNamed(i + 1, k);
    }
  }

  lemma {:induction false} NamedHasName(i: nat, f: Flag)
    requires i <= MAPPINGS && f in Named(i)
    ensures !f.Unnamed?
    decreases MAPPINGS - i
  {
    hide MappingAt;
    if f != MappingAt(i).flag {
      NamedHasName(i + 1, f);
    }
  }

  function EntryOf(f: Flag): (k: nat)
    requires !f.Unnamed?
    ensures k < MAPPINGS && MappingAt(k).flag == f
  {
    match f
    case SfAppend => 0
    case SfArchived => 2
    case SfImmutable => 4
    case SfRestricted => 7
    case SfNounlink => 8
    case UfAppend => 10
    case UfImmutable => 12
    case UfNodump => 15
    case UfOpaque => 16
    case UfHidden => 17
    case UfCompressed => 18
    case UfDatavault => 19
    case SfDataless => 20
  }

  /** The flags that the round trip keeps are all those that have a name. */
  lemma {:induction false} NamedFlags(f: Flag)
    ensures f in Named(0) <==> !f.Unnamed?
  {
    hide Named, MappingAt, EntryOf;
    if !f.Unnamed? {
      EntryIsNamed(0, EntryOf(f));
    } else if f in Named(0) {
      NamedHasName(0, f);
    }
  }

  // ----- both forms of every name -----

  lemma {:induction false} ShortStarts(i: nat)
    requires i < MAPPINGS
    ensures ShortKey(i).a != 'n'
  {
  }

  lemma {:induction false} ShortKeysDiffer(j: nat, k: nat)
    requires j < k < MAPPINGS
    ensures ShortKey(j) != ShortKey(k)
  {
  }

  /** No name is a form of another. */
  lemma {:induction false} NamesDiffer(j: nat, k: nat)
    requires j < k < MAPPINGS
    ensures var (a, b) := (MappingAt(j).name, MappingAt(k).name);
            a != b && a != b[2..] && a[2..] != b && a[2..] != b[2..]
  {
    hide MappingAt, ShortKey;
    KeysAre(j);
    KeysAre(k);
    ShortStarts(j);
    ShortStarts(k);
    ShortKeysDiffer(j, k);
  }

  lemma {:induction false} FormsFound(k: nat)
    requires k < MAPPINGS
    ensures Lookup(MappingAt(k).name, 0) == k && Lookup(MappingAt(k).name[2..], 0) == k
  {
    hide MappingAt;
    var (i, j) := (Lookup(MappingAt(k).name, 0), Lookup(MappingAt(k).name[2..], 0));
    if i < k {
      NamesDiffer(i, k);
    }
    if j < k {
      NamesDiffer(j, k);
    }
  }

  lemma {:induction false} FormsAreTokens(k: nat)
    requires k < MAPPINGS
    ensures NoSeparator(MappingAt(k).name) && NoSeparator(MappingAt(k).name[2..])
  {
    hide MappingAt, KeyOf, ShortKey;
    var m := MappingAt(k);
    NameIsToken(k);
    assert m.name == "no" + m.name[2..];
    assert forall i | 0 <= i < |m.name| - 2 :: m.name[2..][i] == m.name[i + 2];
    assert m.name[0] == m.name[..2][0] == 'n' && m.name[1] == m.name[..2][1] == 'o';
    forall i | 0 <= i < |m.name| ensures !IsSeparator(m.name[i]) {
      if i >= 2 && !m.invert {
        assert m.name[i] == Printed(m)[i - 2];
      }
    }
  }

  /** A text that is one token. */
  lemma {:induction false} OneToken(p: string)
    requires NoSeparator(p)
    ensures Tokens(p) == [p]
  {
    assert p[..|p|] == p;
    EndOfToken(p, |p|);
  }

  /** Each name sets its flag in one form and clears it in the other: which is which depends on the entry. */
  lemma {:induction false} FormsMean(k: nat)
    requires k < MAPPINGS
    ensures var m := MappingAt(k);
            var (sets, clears) := (Parsed(true, {m.flag}, {}, ""), Parsed(true, {}, {m.flag}, ""));
            && Parse(m.name[2..]) == (if m.invert then clears else sets)
            && Parse(m.name) == (if m.invert then sets else clears)
  {
    hide MappingAt, Lookup, Parse;
    var m := MappingAt(k);
    FormsFound(k);
    FormsAreTokens(k);
    ParseOne(m.name);
    ParseOne(m.name[2..]);
    assert |m.name| != |m.name[2..]|;
  }

  lemma {:induction false} ParseOne(p: string)
    requires NoSeparator(p) && p != ""
    ensures var k := Lookup(p, 0);
            Parse(p) ==
              if k == MAPPINGS then Parsed(false, {}, {}, p)
              else if Sets(p, k) then Parsed(true, {MappingAt(k).flag}, {}, "")
              else Parsed(true, {}, {MappingAt(k).flag}, "")
  {
    hide MappingAt, Lookup, Tokens, Sets;
    OneToken(p);
    assert [p][1..] == [];
    var k := Lookup(p, 0);
    if k < MAPPINGS {
      var f := MappingAt(k).flag;
      var none: set<Flag> := {};
      assert none + {f} == {f};
      assert ParseTokens([], {f}, none) == Parsed(true, {f}, none, "");
      assert ParseTokens([], none, {f}) == Parsed(true, none, {f}, "");
      assert ParseTokens([p], none, none) ==
             if Sets(p, k) then ParseTokens([], {f}, none) else ParseTokens([], none, {f});
    }
  }

  /** A token that is no form of any name is refused, and named. */
  lemma {:induction false} OthersRefused(p: string)
    requires p != "" && forall i | 0 <= i < |p| :: p[i] != '\t' && p[i] != ' ' && p[i] != ','
    requires forall k: nat | k < MAPPINGS :: p != MappingAt(k).name && p != MappingAt(k).name[2..]
    ensures Parse(p) == Parsed(false, {}, {}, p)
  {
    hide MappingAt, Parse;
    ParseOne(p);
  }

  // ----- what parsing means, without regard to order -----

  /** The form of entry k that asks for its flag to be set, or to be cleared. */
  function Form(k: nat, toSet: bool): string
    requires k < MAPPINGS
  {
    if toSet == MappingAt(k).invert then MappingAt(k).name else MappingAt(k).name[2..]
  }

  ghost predicate Known(p: string) {
    p == "" || exists k: nat, toSet: bool | k < MAPPINGS :: p == Form(k, toSet)
  }

  /** The token asks for flag f to be set, or cleared. */
  ghost predicate Asks(p: string, f: Flag, toSet: bool) {
    exists k: nat | k < MAPPINGS :: p == Form(k, toSet) && MappingAt(k).flag == f
  }

  lemma {:induction false} KnownIsFound(p: string)
    ensures Known(p) <==> p == "" || Lookup(p, 0) < MAPPINGS
  {
    hide MappingAt, Lookup;
    var k := Lookup(p, 0);
    if k < MAPPINGS {
      assert p == Form(k, true) || p == Form(k, false);
    }
  }

  lemma {:induction false} AsksAsFound(p: string, f: Flag, toSet: bool)
    ensures Asks(p, f, toSet) <==>
              p != "" && Lookup(p, 0) < MAPPINGS && MappingAt(Lookup(p, 0)).flag == f && Sets(p, Lookup(p, 0)) == toSet
  {
    hide MappingAt, Lookup;
    if Asks(p, f, toSet) {
      var k: nat :| k < MAPPINGS && p == Form(k, toSet) && MappingAt(k).flag == f;
      FormsFound(k);
      assert |MappingAt(k).name| != |MappingAt(k).name[2..]|;
    }
    var k := Lookup(p, 0);
    if k < MAPPINGS {
      assert Sets(p, k) == toSet ==> p == Form(k, toSet);
    }
  }

  ghost predicate Asked(tokens: seq<string>, f: Flag, toSet: bool) {
    exists p :: p in tokens && Asks(p, f, toSet)
  }

  ghost function FirstUnknown(tokens: seq<string>): (i: nat)
    ensures i <= |tokens|
  {
    if tokens == [] || !Known(tokens[0]) then 0 else 1 + FirstUnknown(tokens[1..])
  }

  lemma {:induction false} FirstUnknownIs(tokens: seq<string>)
    ensures var i := FirstUnknown(tokens);
            (forall j | 0 <= j < i :: Known(tokens[j])) && (i < |tokens| ==> !Known(tokens[i]))
    decreases tokens
  {
    hide Known;
    if tokens != [] && Known(tokens[0]) {
      FirstUnknownIs(tokens[1..]);
    }
  }

  /** What one token that names an entry adds. */
  function After(p: string, toSet: set<Flag>, toClear: set<Flag>): (set<Flag>, set<Flag>) {
    var k := Lookup(p, 0);
    if p == "" || k == MAPPINGS then (toSet, toClear)
    else if Sets(p, k) then (toSet + {MappingAt(k).flag}, toClear)
    else (toSet, toClear + {MappingAt(k).flag})
  }

  lemma {:induction false} ParseFirst(tokens: seq<string>, toSet: set<Flag>, toClear: set<Flag>)
    requires tokens != []
    ensures var p := tokens[0];
            ParseTokens(tokens, toSet, toClear) ==
              if Known(p) then ParseTokens(tokens[1..], After(p, toSet, toClear).0, After(p, toSet, toClear).1)
              else Parsed(false, toSet, toClear, p)
  {
    hide Lookup, MappingAt, Sets, Known;
    KnownIsFound(tokens[0]);
  }

  lemma {:induction false} AfterAsks(p: string, toSet: set<Flag>, toClear: set<Flag>, f: Flag)
    ensures f in After(p, toSet, toClear).0 <==> f in toSet || Asks(p, f, true)
    ensures f in After(p, toSet, toClear).1 <==> f in toClear || Asks(p, f, false)
  {
    hide Lookup, MappingAt, Sets, Asks;
    AsksAsFound(p, f, true);
    AsksAsFound(p, f, false);
  }

  lemma {:induction false} AskedFirst(p: string, rest: seq<string>, f: Flag, toSet: bool)
    ensures Asked([p] + rest, f, toSet) <==> Asks(p, f, toSet) || Asked(rest, f, toSet)
  {
    hide Asks;
    assert p in [p] + rest;
  }

  lemma {:induction false} AskedNone(f: Flag)
    ensures forall b :: !Asked([], f, b)
  {
  }

  lemma {:induction false} ParseStops(tokens: seq<string>, toSet: set<Flag>, toClear: set<Flag>)
    ensures var (r, i) := (ParseTokens(tokens, toSet, toClear), FirstUnknown(tokens));
            (r.ok <==> i == |tokens|) && (!r.ok ==> r.bad == tokens[i])
    decreases tokens
  {
    hide Known, After;
    if tokens != [] {
      hide ParseTokens;
      ParseFirst(tokens, toSet, toClear);
      if Known(tokens[0]) {
        ParseStops(tokens[1..], After(tokens[0], toSet, toClear).0, After(tokens[0], toSet, toClear).1);
      }
    }
  }

  lemma {:induction false} ParseAsks(tokens: seq<string>, toSet: set<Flag>, toClear: set<Flag>, f: Flag)
    ensures var (r, i) := (ParseTokens(tokens, toSet, toClear), FirstUnknown(tokens));
            && (f in r.toSet <==> f in toSet || Asked(tokens[..i], f, true))
            && (f in r.toClear <==> f in toClear || Asked(tokens[..i], f, false))
    decreases tokens
  {
    hide Known, After, Asked, Asks, FirstUnknown;
    AskedNone(f);
    KnownPart(tokens);
    if tokens != [] {
      ParseFirst(tokens, toSet, toClear);
      hide ParseTokens;
      var (p, rest) := (tokens[0], tokens[1..]);
      if Known(p) {
        ParseAsks(rest, After(p, toSet, toClear).0, After(p, toSet, toClear).1, f);
        AfterAsks(p, toSet, toClear, f);
        AskedFirst(p, rest[..FirstUnknown(rest)], f, true);
        AskedFirst(p, rest[..FirstUnknown(rest)], f, false);
      }
    }
  }

  lemma {:induction false} KnownPart(tokens: seq<string>)
    ensures tokens == [] || !Known(tokens[0]) ==> tokens[..FirstUnknown(tokens)] == []
    ensures tokens != [] && Known(tokens[0]) ==>
              tokens[..FirstUnknown(tokens)] == [tokens[0]] + tokens[1..][..FirstUnknown(tokens[1..])]
  {
    hide Known;
  }

  /**
   Parsing succeeds exactly if every token is known, and where it fails it names the first token that
   is not.  Either way the flags set and cleared are those that some token before that asks for.
   */
  lemma {:induction false} ParseMeans(tokens: seq<string>, toSet: set<Flag>, toClear: set<Flag>)
    ensures var (r, i) := (ParseTokens(tokens, toSet, toClear), FirstUnknown(tokens));
            && (r.ok <==> forall p | p in tokens :: Known(p))
            && (r.ok <==> i == |tokens|) && (!r.ok ==> r.bad == tokens[i] && !Known(tokens[i]))
            && (forall j | 0 <= j < i :: Known(tokens[j]))
            && (forall f :: f in r.toSet <==> f in toSet || Asked(tokens[..i], f, true))
            && (forall f :: f in r.toClear <==> f in toClear || Asked(tokens[..i], f, false))
  {
    hide Known, ParseTokens, FirstUnknown, Asked;
    FirstUnknownIs(tokens);
    ParseStops(tokens, toSet, toClear);
    forall f {
      ParseAsks(tokens, toSet, toClear, f);
    }
  }

  /** The tokens are what stands between tabs, spaces and commas. */
  ghost predicate Splits(s: string, tokens: seq<string>)
    decreases tokens
  {
    tokens != [] && (forall i | 0 <= i < |tokens[0]| :: tokens[0][i] !in "\t ,") &&
    if |tokens| == 1 then tokens[0] == s
    else
      var n := |tokens[0]|;
      n < |s| && s[..n] == tokens[0] && s[n] in "\t ," && Splits(s[n + 1..], tokens[1..])
  }

  lemma {:induction false} TokensSplit(s: string)
    ensures Splits(s, Tokens(s))
    decreases |s|
  {
    hide TokenEnd;
    var n := TokenEnd(s);
    if n < |s| {
      var rest := Tokens(s[n + 1..]);
      TokensSplit(s[n + 1..]);
      assert ([s[..n]] + rest)[1..] == rest;
    }
  }
}
