/** Annotations and the `name/generation` text they carry. */
module Annotation {
  import opened Basics

  const INT64_MAX := 0x7fff_ffff_ffff_ffff

  // ---------------------------------------------------------------------
  // Decimal numbers

  function DigitOf(d: nat): char
    requires d < 10
  {
    ('0' as int + d) as char
  }

  function Digits(n: nat): (s: string)
    ensures s != "" && forall k | 0 <= k < |s| :: IsDigit(s[k])
  {
    if n < 10 then [DigitOf(n)] else Digits(n / 10) + [DigitOf(n % 10)]
  }

  function Format(i: int): string {
    if i < 0 then "-" + Digits(-i) else Digits(i)
  }

  /** The digits at the front. */
  function Leading(s: string): (d: string)
    ensures forall k | 0 <= k < |d| :: IsDigit(d[k])
  {
    if s != "" && IsDigit(s[0]) then [s[0]] + Leading(s[1..]) else ""
  }

  function Value(d: string): nat
    requires forall k | 0 <= k < |d| :: IsDigit(d[k])
  {
    if d == "" then 0
    else
      assert IsDigit(d[|d| - 1]);
      Value(d[..|d| - 1]) * 10 + (d[|d| - 1] as int - '0' as int)
  }

  lemma {:induction false} LeadingAll(s: string)
    requires forall k | 0 <= k < |s| :: IsDigit(s[k])
    ensures Leading(s) == s
    decreases |s|
  {
    if s != "" { LeadingAll(s[1..]); }
  }

  lemma {:induction false} ValueOfDigits(n: nat)
    ensures Value(Digits(n)) == n
    decreases n
  {
    var s := Digits(n);
    if n < 10 {
      assert s[..0] == "";
    } else {
      assert s[..|s| - 1] == Digits(n / 10);
      ValueOfDigits(n / 10);
    }
  }

  /** Numbers are written in decimal. */
  lemma DecimalDigits(n: nat, d: nat)
    requires d < 10
    ensures Digits(d) == [DigitOf(d)] && DigitOf(d) == "0123456789"[d]
    ensures n > 0 ==> Digits(10 * n + d) == Digits(n) + [DigitOf(d)]
  {}

  /** A number is read up to the first character that is not a digit. */
  lemma {:induction false} LeadingStops(s: string)
    ensures var n := |Leading(s)|; n <= |s| && Leading(s) == s[..n] && (n < |s| ==> !IsDigit(s[n]))
    decreases |s|
  {
    if s != "" && IsDigit(s[0]) { LeadingStops(s[1..]); }
  }

  // ---------------------------------------------------------------------
  // `name/generation`

  /** `find_last_of("/")`, or -1. */
  function LastSlash(s: string): (p: int)
    ensures -1 <= p < |s|
    ensures p >= 0 ==> s[p] == '/'
    ensures forall k | p < k < |s| :: s[k] != '/'
  {
    if s == "" then -1
    else if s[|s| - 1] == '/' then |s| - 1
    else LastSlash(s[..|s| - 1])
  }

  /** A number that does not fit throws. */
  datatype Parsed = TooLarge | Parsed(name: string, generation: int)

  predicate HasGeneration(text: string) {
    var p := LastSlash(text);
    p >= 0 && p + 1 < |text| && IsDigit(text[p + 1])
  }

  /** Without a generation at the end, both parts stay as they are. */
  function Parse(text: string, generation: int): Parsed {
    if HasGeneration(text) then
      var p := LastSlash(text);
      var g := Value(Leading(text[p + 1..]));
      if g > INT64_MAX then TooLarge else Parsed(text[..p], g)
    else Parsed(text, generation)
  }

  function NameOf(name: string, generation: int): string {
    name + "/" + Format(generation)
  }

  lemma SlashBeforeDigits(name: string, tail: string)
    requires forall k | 0 <= k < |tail| :: tail[k] != '/'
    ensures LastSlash(name + "/" + tail) == |name|
  {
    LastSlashIn(name + "/", tail);
    assert (name + "/")[|name|] == '/';
  }

  lemma {:induction false} LastSlashIn(a: string, tail: string)
    requires a != "" && a[|a| - 1] == '/' && forall k | 0 <= k < |tail| :: tail[k] != '/'
    ensures LastSlash(a + tail) == |a| - 1
    decreases |tail|
  {
    if tail == "" {
      assert a + tail == a;
    } else {
      assert (a + tail)[..|a + tail| - 1] == a + tail[..|tail| - 1];
      LastSlashIn(a, tail[..|tail| - 1]);
    }
  }

  lemma {:induction false} DigitsHaveNoSlash(n: nat)
    ensures forall k | 0 <= k < |Digits(n)| :: Digits(n)[k] != '/' && Digits(n)[k] != '-'
  {
    forall k | 0 <= k < |Digits(n)| ensures Digits(n)[k] != '/' && Digits(n)[k] != '-' {
      assert IsDigit(Digits(n)[k]);
    }
  }

  ghost predicate HasSlash(s: string) { exists k | 0 <= k < |s| :: s[k] == '/' }

  /** A text without a slash is left alone, name and generation. */
  lemma NoSlashNoGeneration(text: string, generation: int)
    requires !HasSlash(text)
    ensures Parse(text, generation) == Parsed(text, generation)
    ensures NextText(text) == (if !HasGeneration(text) then Some(NameOf(text, 1)) else None)
  {}

  /** Main result: any other text is split at its last slash, if a digit follows: the
      name is what stands before it, the generation the number that starts after it. */
  lemma ParseSplits(name: string, tail: string, generation: int)
    requires !HasSlash(tail)
    ensures Parse(name + "/" + tail, generation)
         == if tail == "" || !IsDigit(tail[0]) then Parsed(name + "/" + tail, generation)
            else if Value(Leading(tail)) > INT64_MAX then TooLarge
            else Parsed(name, Value(Leading(tail)))
  {
    var text := name + "/" + tail;
    SlashBeforeDigits(name, tail);
    assert text[..|name|] == name && text[|name| + 1..] == tail;
    assert tail != "" ==> text[|name| + 1] == tail[0];
  }

  /** Main result: reading a generated name back gives the same base name and
      generation, slashes in the name included, exactly when the generation is
      not negative. */
  lemma NameRoundTrip(name: string, generation: int, before: int)
    requires generation <= INT64_MAX
    ensures generation >= 0 ==> Parse(NameOf(name, generation), before) == Parsed(name, generation)
    ensures generation < 0 ==> Parse(NameOf(name, generation), before) == Parsed(NameOf(name, generation), before)
    ensures (exists g :: Parse(NameOf(name, generation), before) == Parsed(name, g)) <==> generation >= 0
  {
    var tail := Format(generation);
    var text := NameOf(name, generation);
    DigitsHaveNoSlash(if generation < 0 then -generation else generation);
    SlashBeforeDigits(name, tail);
    assert text[|name| + 1..] == tail && text[..|name|] == name && text[|name| + 1] == tail[0];
    if generation >= 0 {
      LeadingAll(tail);
      ValueOfDigits(generation);
    } else {
      assert |text| != |name|;
    }
  }

  class Information {
    var name: string
    var generation: int

    constructor (name: string, generation: int)
      ensures this.name == name && this.generation == generation
    {
      this.name, this.generation := name, generation;
    }

    /** Moves a trailing generation out of the name. */
    method ExtractFromName() returns (ok: bool)
      modifies this
      ensures ok == Parse(old(name), old(generation)).Parsed?
      ensures ok ==> Parse(old(name), old(generation)) == Parsed(name, generation)
      ensures !ok ==> name == old(name) && generation == old(generation)
    {
      var p := LastSlash(name);
      if p >= 0 && p + 1 < |name| && IsDigit(name[p + 1]) {
        var g := Value(Leading(name[p + 1..]));
        if g > INT64_MAX { return false; }
        generation := g;
        name := name[..p];
      }
      return true;
    }

    method GenerateName() returns (s: string)
      ensures s == NameOf(name, generation)
    {
      s := name + "/" + Format(generation);
    }

    /** The next generation must still fit. */
    method IncrementGeneration() returns (g: int)
      requires generation < INT64_MAX
      modifies this`generation
      ensures g == generation == old(generation) + 1
    {
      generation := generation + 1;
      g := generation;
    }
  }

  // ---------------------------------------------------------------------
  // The annotation itself

  datatype Item = Text(s: string) | Number(i: int) | Nested(entries: seq<Entry>)

  /** A list whose first element is its key. */
  datatype Entry = Entry(key: string, data: seq<Item>)

  const NAME := "name"

  function IndexOf(entries: seq<Entry>, key: string): (k: nat)
    ensures k <= |entries|
    ensures k < |entries| ==> entries[k].key == key
    ensures forall j | 0 <= j < k :: entries[j].key != key
  {
    if entries == [] || entries[0].key == key then 0 else 1 + IndexOf(entries[1..], key)
  }

  /** Every entry of that key is replaced. */
  function Replace(entries: seq<Entry>, key: string, sub: Entry): (r: seq<Entry>)
    ensures |r| == |entries|
    ensures forall k | 0 <= k < |r| :: r[k] == if entries[k].key == key then sub else entries[k]
  {
    seq(|entries|, k requires 0 <= k < |entries| => if entries[k].key == key then sub else entries[k])
  }

  /** The entry that names an annotation with a given text. */
  function NameEntry(text: string): Entry { Entry(NAME, [Text(text)]) }

  /** Incrementing fails without a name entry, or when its text is missing or too large. */
  datatype Bumped = Fails | Bumped(entries: seq<Entry>)

  /** The text with the next generation; a name without one starts at zero. */
  function NextText(text: string): Option<string> {
    var p := Parse(text, 0);
    if p.TooLarge? || p.generation >= INT64_MAX then None else Some(NameOf(p.name, p.generation + 1))
  }

  function Bump(entries: seq<Entry>): Bumped {
    var k := IndexOf(entries, NAME);
    if k == |entries| || entries[k].data == [] || !entries[k].data[0].Text? then Fails
    else
      var text := NextText(entries[k].data[0].s);
      if text.None? then Fails else Bumped(Replace(entries, NAME, NameEntry(text.value)))
  }

  /** Reads a name, increments its generation and writes it again. */
  method NextName(text: string) returns (r: Option<string>)
    ensures r == NextText(text)
  {
    var info := new Information(text, 0);
    var ok := info.ExtractFromName();
    if !ok || info.generation >= INT64_MAX { return None; }
    var _ := info.IncrementGeneration();
    var s := info.GenerateName();
    return Some(s);
  }

  class Annotation {
    var entries: seq<Entry>

    constructor (entries: seq<Entry>)
      ensures this.entries == entries
    {
      this.entries := entries;
    }

    method Find(key: string) returns (found: bool, entry: Entry)
      ensures found == (IndexOf(entries, key) < |entries|)
      ensures found ==> entry == entries[IndexOf(entries, key)]
    {
      entry := Entry("", []);
      ghost var k := IndexOf(entries, key);
      for i := 0 to |entries|
        invariant i <= k
      {
        if entries[i].key == key { return true, entries[i]; }
      }
      found := false;
    }

    method HasKey(key: string) returns (b: bool)
      ensures b == exists k | 0 <= k < |entries| :: entries[k].key == key
    {
      for i := 0 to |entries|
        invariant forall k | 0 <= k < i :: entries[k].key != key
      {
        if entries[i].key == key { return true; }
      }
      return false;
    }

    /** Fails on a key that is not there. */
    method ReplaceAnnotation(key: string, data: Entry) returns (ok: bool)
      modifies this
      ensures ok == exists k | 0 <= k < |old(entries)| :: old(entries)[k].key == key
      ensures entries == if ok then Replace(old(entries), key, data) else old(entries)
    {
      ok := HasKey(key);
      if !ok { return; }
      var newData := [];
      for i := 0 to |entries|
        invariant entries == old(entries)
        invariant newData == Replace(entries, key, data)[..i]
      {
        newData := newData + [if entries[i].key == key then data else entries[i]];
      }
      entries := newData;
    }

    /** The generation in the name entry goes up by one. */
    method IncrementGeneration() returns (ok: bool)
      modifies this
      ensures ok == Bump(old(entries)).Bumped?
      ensures if ok then Bump(old(entries)) == Bumped(entries) else entries == old(entries)
    {
      var found, nameEntry := Find(NAME);
      if !found || nameEntry.data == [] || !nameEntry.data[0].Text? { return false; }
      var text := NextName(nameEntry.data[0].s);
      if text == None { return false; }
      assert entries[IndexOf(entries, NAME)].key == NAME;
      ok := ReplaceAnnotation(NAME, NameEntry(text.value));
    }
  }

  // ---------------------------------------------------------------------
  // Many increments

  ghost predicate UniqueKeys(entries: seq<Entry>) {
    forall i, j | 0 <= i < j < |entries| :: entries[i].key != entries[j].key
  }

  /** The same annotation under another name. */
  function Named(entries: seq<Entry>, k: nat, name: string, g: int): seq<Entry>
    requires k < |entries|
  {
    entries[k := NameEntry(NameOf(name, g))]
  }

  function BumpTimes(entries: seq<Entry>, n: nat): Bumped {
    if n == 0 then Bumped(entries)
    else
      var b := BumpTimes(entries, n - 1);
      if b.Fails? then Fails else Bump(b.entries)
  }

  /** Main result: `n` increments raise the generation by exactly `n` and leave
      every other entry as it is, in its place. */
  lemma {:induction false} IncrementsAddUp(entries: seq<Entry>, k: nat, name: string, g: nat, n: nat)
    requires UniqueKeys(entries) && k < |entries| && entries[k].key == NAME
    requires entries[k].data != [] && entries[k].data[0].Text?
    requires Parse(entries[k].data[0].s, 0) == Parsed(name, g) && 0 < n && g + n <= INT64_MAX
    ensures BumpTimes(entries, n) == Bumped(Named(entries, k, name, g + n))
    decreases n
  {
    if n == 1 {
      BumpMore(entries, 1, entries);
      OneIncrement(entries, k, name, g);
    } else {
      IncrementsAddUp(entries, k, name, g, n - 1);
      BumpMore(entries, n, Named(entries, k, name, g + n - 1));
      OneMore(entries, k, name, g + n - 1);
    }
  }

  lemma BumpMore(entries: seq<Entry>, n: nat, before: seq<Entry>)
    requires n > 0 && BumpTimes(entries, n - 1) == Bumped(before)
    ensures BumpTimes(entries, n) == Bump(before)
  {}

  lemma NamedAgain(entries: seq<Entry>, k: nat, name: string, g: nat)
    requires k < |entries|
    ensures Named(Named(entries, k, name, g), k, name, g + 1) == Named(entries, k, name, g + 1)
  {}

  lemma OnlyOne(entries: seq<Entry>, k: nat, sub: Entry)
    requires UniqueKeys(entries) && k < |entries|
    ensures Replace(entries, entries[k].key, sub) == entries[k := sub]
  {}

  lemma OneMore(entries: seq<Entry>, k: nat, name: string, g: nat)
    requires UniqueKeys(entries) && k < |entries| && entries[k].key == NAME && g < INT64_MAX
    ensures Bump(Named(entries, k, name, g)) == Bumped(Named(entries, k, name, g + 1))
  {
    NameRoundTrip(name, g, 0);
    OneIncrement(Named(entries, k, name, g), k, name, g);
    NamedAgain(entries, k, name, g);
  }

  lemma OneIncrement(entries: seq<Entry>, k: nat, name: string, g: nat)
    requires UniqueKeys(entries) && k < |entries| && entries[k].key == NAME
    requires entries[k].data != [] && entries[k].data[0].Text?
    requires Parse(entries[k].data[0].s, 0) == Parsed(name, g) && g < INT64_MAX
    ensures Bump(entries) == Bumped(Named(entries, k, name, g + 1))
  {
    assert IndexOf(entries, NAME) == k;
    OnlyOne(entries, k, NameEntry(NameOf(name, g + 1)));
  }
}
