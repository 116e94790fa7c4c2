/** The names of files in the cache directory: those of entries, and those of temporary files whose writer is gone. */
module CacheNames {
  import opened Prelude
  import opened CacheRetention
  import T = CodecTrees

  predicate Digits(text: string) {
    text != [] && forall k :: 0 <= k < |text| ==> '0' <= text[k] <= '9'
  }

  function Decimal(text: string): nat
    requires forall k :: 0 <= k < |text| ==> '0' <= text[k] <= '9'
  {
    if text == [] then 0 else 10 * Decimal(text[..|text| - 1]) + (text[|text| - 1] - '0') as nat
  }

  /** Digits, after a plus sign if there is one, below a power of two. */
  predicate Parses(text: string, limit: nat) {
    var digits := if text != [] && text[0] == '+' then text[1..] else text;
    Digits(digits) && Decimal(digits) < limit
  }

  const U32_LIMIT: nat := 0x1_0000_0000
  const U128_LIMIT: nat := 0x1_0000_0000_0000_0000_0000_0000_0000_0000

  const SUFFIX := ".json.gz.tmp"

  function Split(text: string): (parts: seq<string>)
    ensures |parts| > 0
  {
    if text == [] then [""]
    else
      var before := Split(text[..|text| - 1]);
      if text[|text| - 1] == '.' then before + [""]
      else before[|before| - 1 := before[|before| - 1] + [text[|text| - 1]]]
  }

  /** Named after a key, a process number and a time, by a process that is gone. */
  predicate Abandoned(name: string, alive: string -> bool) {
    && |name| >= |SUFFIX| && name[|name| - |SUFFIX|..] == SUFFIX
    && var parts := Split(name[..|name| - |SUFFIX|]);
    && |parts| == 3
    && |parts[0]| == 64 && (forall k :: 0 <= k < 64 ==> HexDigit(parts[0][k]))
    && Parses(parts[1], U32_LIMIT) && Parses(parts[2], U128_LIMIT)
    && !alive(parts[1])
  }

  lemma ManagedEnding(name: string)
    requires Managed(name)
    ensures name[|name| - 1] == 'z'
  {
    hide HexDigit;
    var rest := name[64..];
    assert rest[|rest| - 1] == name[|name| - 1];
  }

  lemma AbandonedEnding(name: string, alive: string -> bool)
    requires Abandoned(name, alive)
    ensures name[|name| - 1] == 'p'
  {
    hide Split, Parses, HexDigit;
    var rest := name[|name| - |SUFFIX|..];
    assert rest[|rest| - 1] == name[|name| - 1];
  }

  lemma AbandonedIsNotManaged(name: string, alive: string -> bool)
    requires Abandoned(name, alive)
    ensures !Managed(name)
  {
    hide Managed, Abandoned;
    AbandonedEnding(name, alive);
    if Managed(name) {
      ManagedEnding(name);
    }
  }

  // What the names are

  ghost predicate KeyText(text: string) {
    |text| == 64 && forall c :: c in text ==> c in "0123456789abcdef"
  }

  lemma HexMeans(c: char)
    ensures HexDigit(c) <==> c in "0123456789abcdef"
  {
  }

  lemma KeyMeans(text: string)
    ensures KeyText(text) <==> |text| == 64 && forall k :: 0 <= k < 64 ==> HexDigit(text[k])
  {
    hide HexDigit;
    forall c ensures HexDigit(c) <==> c in "0123456789abcdef" {
      HexMeans(c);
    }
    if |text| == 64 && forall k :: 0 <= k < 64 ==> HexDigit(text[k]) {
      forall c | c in text ensures c in "0123456789abcdef" {
        var k :| 0 <= k < |text| && text[k] == c;
      }
    }
    if KeyText(text) {
      forall k | 0 <= k < 64 ensures HexDigit(text[k]) {
        assert text[k] in text;
      }
    }
  }

  /** An entry is named by a key of sixty-four hexadecimal digits and one of two endings. */
  lemma ManagedMeans(name: string)
    ensures Managed(name) <==> exists key :: KeyText(key) && (name == key + ".json.gz" || name == key + ".program.json.gz")
  {
    hide HexDigit, KeyText;
    if Managed(name) {
      KeyMeans(name[..64]);
      assert name == name[..64] + name[64..];
    }
    if key :| KeyText(key) && (name == key + ".json.gz" || name == key + ".program.json.gz") {
      KeyMeans(key);
      assert name[..64] == key;
      assert forall k :: 0 <= k < 64 ==> name[k] == key[k];
    }
  }

  function Power10(n: nat): nat {
    if n == 0 then 1 else 10 * Power10(n - 1)
  }

  ghost predicate AllDigits(text: string) {
    forall c :: c in text ==> 48 <= c as int <= 57
  }

  lemma DigitsMean(text: string)
    ensures Digits(text) <==> text != "" && AllDigits(text)
  {
    if AllDigits(text) {
      assert forall k :: 0 <= k < |text| ==> text[k] in text;
    }
    if Digits(text) {
      forall c | c in text ensures 48 <= c as int <= 57 {
        var k :| 0 <= k < |text| && text[k] == c;
      }
    }
  }

  lemma DigitsThroughout(text: string)
    requires AllDigits(text)
    ensures forall k :: 0 <= k < |text| ==> '0' <= text[k] <= '9'
  {
    assert forall k :: 0 <= k < |text| ==> text[k] in text;
  }

  ghost function ValueOf(text: string): nat {
    if AllDigits(text) then
      DigitsThroughout(text);
      Decimal(text)
    else 0
  }

  lemma ShiftDigit(x: nat, p: nat, rest: nat, d: nat)
    ensures 10 * (x * p + rest) + d == x * (10 * p) + (10 * rest + d)
  {
  }

  lemma ValueNext(text: string, c: char)
    requires AllDigits(text + [c])
    ensures AllDigits(text) && 48 <= c as int && ValueOf(text + [c]) == 10 * ValueOf(text) + (c as int - 48)
  {
    var more := text + [c];
    assert forall x :: x in text ==> x in more;
    assert more[|text|] == c && more[..|more| - 1] == text;
    DigitsThroughout(more);
    DigitsThroughout(text);
  }

  /** Each digit counts what it is, times ten for every digit behind it. */
  lemma {:induction false} DecimalMeans(a: string, b: string)
    requires AllDigits(a + b)
    ensures AllDigits(a) && AllDigits(b) && ValueOf(a + b) == ValueOf(a) * Power10(|b|) + ValueOf(b)
    decreases |b|
  {
    hide ValueOf;
    assert forall x :: x in a || x in b ==> x in a + b;
    if b == "" {
      assert a + b == a;
      NoValue();
    } else {
      var c, last := b[..|b| - 1], b[|b| - 1];
      assert c + [last] == b && (a + c) + [last] == a + b;
      ValueNext(a + c, last);
      DecimalMeans(a, c);
      ValueNext(c, last);
      ShiftDigit(ValueOf(a), Power10(|c|), ValueOf(c), last as int - 48);
    }
  }

  lemma NoValue()
    ensures ValueOf("") == 0
  {
  }

  /** One digit counts what it is. */
  lemma DigitMeans(c: char)
    requires 48 <= c as int <= 57
    ensures AllDigits([c]) && ValueOf([c]) == c as int - 48
  {
    assert [] + [c] == [c];
    NoValue();
    ValueNext([], c);
  }

  /** A plus sign or nothing, and digits whose value is below the limit. */
  ghost predicate NumberBelow(text: string, limit: nat) {
    exists digits :: (text == digits || text == "+" + digits) && Digits(digits) && Decimal(digits) < limit
  }

  lemma ParsesMeans(text: string, limit: nat)
    ensures Parses(text, limit) <==> NumberBelow(text, limit)
  {
    if Parses(text, limit) {
      var digits := if text != [] && text[0] == '+' then text[1..] else text;
      assert text == digits || text == "+" + digits;
    }
    if digits :| (text == digits || text == "+" + digits) && Digits(digits) && Decimal(digits) < limit {
      if text != digits {
        assert text[0] == '+' && text[1..] == digits;
      } else {
        assert text[0] != '+';
      }
    }
  }

  predicate Plain(text: string) {
    forall c :: c in text ==> c != '.'
  }

  lemma SplitMore(text: string, c: char)
    requires c != '.'
    ensures var parts := Split(text); Split(text + [c]) == parts[|parts| - 1 := parts[|parts| - 1] + [c]]
  {
    assert (text + [c])[..|text + [c]| - 1] == text;
  }

  lemma {:induction false} SplitPlain(text: string, part: string)
    requires Plain(part)
    ensures var parts := Split(text); Split(text + part) == parts[|parts| - 1 := parts[|parts| - 1] + part]
    decreases |part|
  {
    hide Split;
    var parts := Split(text);
    if part == "" {
      assert text + part == text && parts[|parts| - 1] + part == parts[|parts| - 1];
    } else {
      var c, last := part[..|part| - 1], part[|part| - 1];
      assert last in part && last != '.' && c + [last] == part;
      assert forall x :: x in c ==> x in part;
      SplitPlain(text, c);
      SplitMore(text + c, last);
      assert text + c + [last] == text + part;
      assert parts[|parts| - 1] + c + [last] == parts[|parts| - 1] + part;
    }
  }

  lemma SplitDot(text: string)
    ensures Split(text + ".") == Split(text) + [""]
  {
    assert (text + ".")[..|text + "."| - 1] == text;
  }

  lemma SplitNext(text: string, part: string)
    requires Plain(part)
    ensures Split(text + "." + part) == Split(text) + [part]
  {
    hide Split;
    SplitDot(text);
    SplitPlain(text + ".", part);
    assert "" + part == part;
  }

  lemma SplitFirst(part: string)
    requires Plain(part)
    ensures Split(part) == [part]
  {
    assert Split("") == [""];
    hide Split;
    SplitPlain("", part);
    assert "" + part == part;
  }

  /** Three parts without a dot, joined by dots, are split at those. */
  lemma SplitThree(a: string, b: string, c: string)
    requires Plain(a) && Plain(b) && Plain(c)
    ensures Split(a + "." + b + "." + c) == [a, b, c]
  {
    hide Split, Plain;
    SplitFirst(a);
    SplitNext(a, b);
    SplitNext(a + "." + b, c);
  }

  /** What a text is split into, joined by dots, is the text, and no part has a dot. */
  function Joined(parts: seq<string>): string
    requires |parts| > 0
  {
    if |parts| == 1 then parts[0] else Joined(parts[..|parts| - 1]) + "." + parts[|parts| - 1]
  }

  lemma {:induction false} SplitMeans(text: string)
    ensures Joined(Split(text)) == text && forall p :: p in Split(text) ==> Plain(p)
  {
    hide Plain;
    NoDots();
    if text != "" {
      var c := text[|text| - 1];
      var before := Split(text[..|text| - 1]);
      SplitMeans(text[..|text| - 1]);
      var parts := Split(text);
      assert before[|before| - 1] in before;
      if c == '.' {
        assert parts[..|parts| - 1] == before;
      } else {
        OneMore(before[|before| - 1], c);
        assert parts[..|parts| - 1] == before[..|before| - 1];
        forall p | p in parts ensures Plain(p) {
          var k :| 0 <= k < |parts| && parts[k] == p;
          assert k < |parts| - 1 ==> before[k] == p && p in before;
        }
      }
    }
  }

  lemma NoDots()
    ensures Plain("")
  {
  }

  lemma OneMore(text: string, c: char)
    requires Plain(text) && c != '.'
    ensures Plain(text + [c])
  {
  }

  /** A temporary file is named after a key, the number of its writer's process and a time. */
  ghost predicate TemporaryOf(name: string, process: string) {
    exists key, time :: Temporary(name, key, process, time)
  }

  ghost predicate Temporary(name: string, key: string, process: string, time: string) {
    && name == key + "." + process + "." + time + ".json.gz.tmp"
    && KeyText(key) && NumberBelow(process, 4_294_967_296)
    && NumberBelow(time, 340_282_366_920_938_463_463_374_607_431_768_211_456)
  }

  lemma KeyIsPlain(text: string)
    requires KeyText(text)
    ensures Plain(text)
  {
    forall c | c in text ensures c != '.' {
      assert c in "0123456789abcdef";
    }
  }

  lemma NumberIsPlain(text: string, limit: nat)
    requires NumberBelow(text, limit)
    ensures Plain(text)
  {
    var digits :| (text == digits || text == "+" + digits) && Digits(digits) && Decimal(digits) < limit;
    DigitsMean(digits);
  }

  /** The parts of such a name can be read off it. */
  lemma TemporaryParts(name: string, key: string, process: string, time: string)
    requires Temporary(name, key, process, time)
    ensures |name| >= |SUFFIX| && name[|name| - |SUFFIX|..] == SUFFIX && Split(name[..|name| - |SUFFIX|]) == [key, process, time]
  {
    hide KeyText, NumberBelow;
    var stem := key + "." + process + "." + time;
    assert name == stem + SUFFIX;
    assert name[..|name| - |SUFFIX|] == stem;
    KeyIsPlain(key);
    NumberIsPlain(process, 4_294_967_296);
    NumberIsPlain(time, 340_282_366_920_938_463_463_374_607_431_768_211_456);
    SplitThree(key, process, time);
  }

  lemma TemporaryIs(name: string, process: string, alive: string -> bool)
    requires Abandoned(name, alive)
    requires process == Split(name[..|name| - |SUFFIX|])[1]
    ensures TemporaryOf(name, process) && !alive(process)
  {
    hide HexDigit, Parses, KeyText, NumberBelow, Split;
    var stem := name[..|name| - |SUFFIX|];
    var parts := Split(stem);
    SplitMeans(stem);
    assert name == stem + SUFFIX;
    JoinThree(parts);
    KeyMeans(parts[0]);
    ParsesMeans(parts[1], 4_294_967_296);
    ParsesMeans(parts[2], 340_282_366_920_938_463_463_374_607_431_768_211_456);
    assert Temporary(name, parts[0], parts[1], parts[2]);
  }

  lemma JoinThree(parts: seq<string>)
    requires |parts| == 3
    ensures Joined(parts) == parts[0] + "." + parts[1] + "." + parts[2]
  {
    var two := parts[..2];
    assert two[..1] == [parts[0]] && two[1] == parts[1] && |two| == 2;
    assert Joined(two[..1]) == parts[0];
    assert Joined(two) == parts[0] + "." + parts[1];
  }

  /** The files that pruning removes as abandoned are the temporary files of processes that are gone: one whose
      process is alive is not, whatever else its name could be read as. */
  lemma AbandonedMeans(name: string, alive: string -> bool)
    ensures Abandoned(name, alive) <==> exists process :: TemporaryOf(name, process) && !alive(process)
    ensures forall process :: TemporaryOf(name, process) ==> (Abandoned(name, alive) <==> !alive(process))
  {
    hide Abandoned, TemporaryOf, Split;
    forall process | TemporaryOf(name, process) ensures Abandoned(name, alive) <==> !alive(process) {
      TemporaryWhen(name, process, alive);
    }
    if Abandoned(name, alive) {
      AbandonedFits(name, alive);
      TemporaryIs(name, Split(name[..|name| - |SUFFIX|])[1], alive);
    }
  }

  lemma AbandonedFits(name: string, alive: string -> bool)
    requires Abandoned(name, alive)
    ensures |name| >= |SUFFIX| && |Split(name[..|name| - |SUFFIX|])| == 3
  {
    hide Split;
  }

  lemma TemporaryWhen(name: string, process: string, alive: string -> bool)
    requires TemporaryOf(name, process)
    ensures Abandoned(name, alive) <==> !alive(process)
  {
    hide KeyText, HexDigit, Parses, NumberBelow, Split;
    var key, time :| Temporary(name, key, process, time);
    TemporaryParts(name, key, process, time);
    KeyMeans(key);
    ParsesMeans(process, 4_294_967_296);
    ParsesMeans(time, 340_282_366_920_938_463_463_374_607_431_768_211_456);
  }

  lemma TemporaryIsNotManaged(name: string, process: string)
    requires TemporaryOf(name, process)
    ensures !Managed(name)
  {
    hide Managed, Abandoned;
    var gone: string -> bool := _ => false;
    AbandonedMeans(name, gone);
    AbandonedIsNotManaged(name, gone);
  }

  // The order of eviction and expiry

  /** Less recently used, or as recently and earlier in the order of a dictionary. */
  lemma OlderMeans(a: Entry, b: Entry)
    ensures Older(a, b) <==> a.used < b.used || (a.used == b.used && T.Lexicographic(a.name, b.name))
  {
    T.BeforeMeans(a.name, b.name);
  }

  /** An entry is expired when it was last used longer ago than the limit. */
  lemma ExpiredMeans(e: Entry, now: int, limits: Limits)
    ensures Expired(e, now, limits) <==> e.used + limits.age < now
  {
  }

  /** Sums are held in 64 bits. */
  lemma SaturatingMeans(a: nat, b: nat)
    ensures a + b <= 18_446_744_073_709_551_615 ==> SaturatingAdd(a, b) == a + b
    ensures a + b > 18_446_744_073_709_551_615 ==> SaturatingAdd(a, b) == 18_446_744_073_709_551_615
    ensures a >= b ==> SaturatingSub(a, b) + b == a
    ensures a < b ==> SaturatingSub(a, b) == 0
  {
  }
}
