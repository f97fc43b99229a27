/** The C++ readers of FLAGOS_* variables, and the Python form that they mirror. */
module FlagosEnv {

  import opened Common

  // ---------- Characters ----------

  /** `isspace` of the C locale. */
  predicate IsSpace(c: char) {
    c == ' ' || c == '\t' || c == '\n' || c == '\U{0B}' || c == '\U{0C}' || c == '\r'
  }

  function LowerChar(c: char): char {
    if 'A' <= c <= 'Z' then c - 'A' + 'a' else c
  }

  function Lower(s: string): (r: string)
    ensures |r| == |s|
    ensures forall i :: 0 <= i < |s| ==> r[i] == LowerChar(s[i])
  {
    seq(|s|, i requires 0 <= i < |s| => LowerChar(s[i]))
  }

  // ---------- Stripping ----------

  function StripLeft(s: string): string {
    if s != [] && IsSpace(s[0]) then StripLeft(s[1..]) else s
  }

  function StripRight(s: string): string {
    if s != [] && IsSpace(s[|s| - 1]) then StripRight(s[..|s| - 1]) else s
  }

  function Strip(s: string): string {
    StripRight(StripLeft(s))
  }

  /** The two index loops that trim the characters from `lo` up to `hi`. */
  method TrimBounds(s: string, lo: nat, hi: nat) returns (begin: nat, end: nat)
    requires lo <= hi <= |s|
    ensures lo <= begin <= end <= hi && s[begin..end] == Strip(s[lo..hi])
  {
    begin, end := lo, hi;
    while begin < end && IsSpace(s[begin])
      invariant lo <= begin <= end == hi && StripLeft(s[begin..end]) == StripLeft(s[lo..hi])
    {
      assert s[begin..end][1..] == s[begin + 1..end];
      begin := begin + 1;
    }
    assert StripLeft(s[begin..end]) == s[begin..end];
    while end > begin && IsSpace(s[end - 1])
      invariant lo <= begin <= end <= hi && StripRight(s[begin..end]) == Strip(s[lo..hi])
    {
      assert s[begin..end][..end - begin - 1] == s[begin..end - 1];
      end := end - 1;
    }
  }

  /** `EnvRaw`: unset, empty and blank all read as not set. */
  method EnvRaw(raw: Option<string>) returns (r: Option<string>)
    ensures r == if raw.Some? && Strip(raw.value) != "" then Some(Strip(raw.value)) else None
  {
    if raw.None? { return None; }
    var begin, end := TrimBounds(raw.value, 0, |raw.value|);
    assert raw.value[0..|raw.value|] == raw.value;
    if begin == end { return None; }
    r := Some(raw.value[begin..end]);
  }

  /** `EnvIs`: equality up to ASCII case. */
  method EnvIs(raw: string, want: string) returns (same: bool)
    ensures same <==> Lower(raw) == Lower(want)
  {
    var i := 0;
    while i < |raw| && i < |want|
      invariant i <= |raw| && i <= |want|
      invariant forall k :: 0 <= k < i ==> LowerChar(raw[k]) == LowerChar(want[k])
    {
      if LowerChar(raw[i]) != LowerChar(want[i]) {
        assert Lower(raw)[i] != Lower(want)[i];
        return false;
      }
      i := i + 1;
    }
    same := i == |raw| && i == |want|;
    if !same { assert |Lower(raw)| != |Lower(want)|; }
  }

  // ---------- Comma-separated lists ----------

  /** The position of the first comma, or the length. */
  function Comma(s: string): (i: nat)
    ensures i <= |s| && (i < |s| ==> s[i] == ',') && forall k :: 0 <= k < i ==> s[k] != ','
  {
    if s == [] || s[0] == ',' then 0 else 1 + Comma(s[1..])
  }

  /** `s.split(",")`. */
  function Split(s: string): seq<string>
    decreases |s|
  {
    var i := Comma(s);
    if i == |s| then [s] else [s[..i]] + Split(s[i + 1..])
  }

  predicate SameWord(part: string, item: string) {
    Lower(Strip(part)) == Lower(item)
  }

  /** Some part, stripped, is `item` up to case. */
  predicate HasPart(s: string, item: string)
    decreases |s|
  {
    var i := Comma(s);
    SameWord(s[..i], item) || (i < |s| && HasPart(s[i + 1..], item))
  }

  lemma {:induction false} HasPartOfSplit(s: string, item: string)
    ensures HasPart(s, item) <==> exists p :: p in Split(s) && SameWord(p, item)
    decreases |s|
  {
    hide SameWord;
    var i := Comma(s);
    if i == |s| {
      assert s[..i] == s && s in Split(s);
    } else {
      HasPartOfSplit(s[i + 1..], item);
      var rest := Split(s[i + 1..]);
      assert forall p :: p in Split(s) <==> p == s[..i] || p in rest;
    }
  }

  /** `strchr` from a position on. */
  method FindComma(s: string, pos: nat) returns (i: nat)
    requires pos <= |s|
    ensures pos <= i <= |s| && i == pos + Comma(s[pos..])
  {
    i := pos;
    while i < |s| && s[i] != ','
      invariant pos <= i <= |s| && pos + Comma(s[pos..]) == i + Comma(s[i..])
    {
      assert s[i..][1..] == s[i + 1..];
      i := i + 1;
    }
  }

  /** One part: trimmed by positions, compared only if the length fits. */
  method PartIs(s: string, pos: nat, end: nat, item: string) returns (same: bool)
    requires pos <= end <= |s|
    ensures same <==> SameWord(s[pos..end], item)
  {
    var begin, stop := TrimBounds(s, pos, end);
    if stop - begin != |item| {
      assert |Lower(s[begin..stop])| != |Lower(item)|;
      return false;
    }
    same := EnvIs(s[begin..stop], item);
  }

  /** `ListedIn`: the scan by positions over an unsplit, unstripped list. */
  method ListedIn(haystack: Option<string>, item: string) returns (found: bool)
    ensures found <==> haystack.Some? && HasPart(haystack.value, item)
  {
    hide SameWord, Comma;
    if haystack.None? { return false; }
    var s := haystack.value;
    var pos := 0;
    assert s[0..] == s;
    while true
      invariant pos <= |s| && (HasPart(s, item) <==> HasPart(s[pos..], item))
      decreases |s| - pos
    {
      var end := FindComma(s, pos);
      assert s[pos..][..end - pos] == s[pos..end];
      var same := PartIs(s, pos, end, item);
      if same { return true; }
      if end == |s| { return false; }
      assert s[pos..][end - pos + 1..] == s[end + 1..];
      pos := end + 1;
    }
  }

  /** `EnvListed`. */
  method EnvListed(raw: Option<string>, item: string) returns (found: bool)
    ensures found <==> raw.Some? && Strip(raw.value) != "" && HasPart(Strip(raw.value), item)
  {
    var haystack := EnvRaw(raw);
    found := ListedIn(haystack, item);
  }

  // ---------- What stripping, lowering and splitting mean ----------

  const UPPER: string := "ABCDEFGHIJKLMNOPQRSTUVWXYZ"
  const LOWER: string := "abcdefghijklmnopqrstuvwxyz"

  /** The 26 letters are lowered, every other character stays. */
  lemma LowerIs(s: string, i: nat)
    requires i < |s|
    ensures forall k :: 0 <= k < 26 && s[i] == UPPER[k] ==> Lower(s)[i] == LOWER[k]
    ensures s[i] !in UPPER ==> Lower(s)[i] == s[i]
  {
    assert forall k :: 0 <= k < 26 ==> UPPER[k] == 'A' + k as char && LOWER[k] == 'a' + k as char;
    if 'A' <= s[i] <= 'Z' { assert UPPER[s[i] as int - 'A' as int] == s[i]; }
  }

  predicate AllIn(s: string, chars: string) {
    forall i :: 0 <= i < |s| ==> s[i] in chars
  }

  /** Nothing of it would be stripped. */
  predicate Bare(s: string, chars: string) {
    s != "" ==> s[0] !in chars && s[|s| - 1] !in chars
  }

  /** Stripping takes off exactly the white space at both ends. */
  lemma StripIs(a: string, s: string, b: string)
    requires AllIn(a, " \t\n\U{0B}\U{0C}\r") && Bare(s, " \t\n\U{0B}\U{0C}\r") && AllIn(b, " \t\n\U{0B}\U{0C}\r")
    ensures Strip(a + s + b) == s
  {
    StripLeftIs(a, s + b);
    assert a + s + b == a + (s + b);
    if s != "" {
      StripRightIs(s, b);
    } else {
      StripLeftIs(b, "");
      assert s + b == b + "";
    }
  }

  lemma {:induction false} StripLeftIs(a: string, s: string)
    requires AllIn(a, " \t\n\U{0B}\U{0C}\r")
    ensures StripLeft(a + s) == StripLeft(s)
  {
    if a != "" {
      assert (a + s)[1..] == a[1..] + s;
      StripLeftIs(a[1..], s);
    } else {
      assert a + s == s;
    }
  }

  lemma {:induction false} StripRightIs(s: string, b: string)
    requires AllIn(b, " \t\n\U{0B}\U{0C}\r") && s != "" && s[|s| - 1] !in " \t\n\U{0B}\U{0C}\r"
    ensures StripRight(s + b) == s
  {
    if b != "" {
      assert (s + b)[..|s + b| - 1] == s + b[..|b| - 1];
      StripRightIs(s, b[..|b| - 1]);
    } else {
      assert s + b == s;
    }
  }

  function Join(parts: seq<string>): string
    requires parts != []
  {
    if |parts| == 1 then parts[0] else parts[0] + "," + Join(parts[1..])
  }

  /** Splitting undoes joining with commas. */
  lemma {:induction false} SplitIs(parts: seq<string>)
    requires parts != [] && forall i :: 0 <= i < |parts| ==> ',' !in parts[i]
    ensures Split(Join(parts)) == parts
    decreases |parts|
  {
    if |parts| == 1 {
      assert parts == [parts[0]];
      CommaAt(parts[0], "", false);
      assert parts[0] + "" == parts[0];
    } else {
      SplitIs(parts[1..]);
      CommaAt(parts[0], Join(parts[1..]), true);
      var s := Join(parts);
      assert s[..|parts[0]|] == parts[0] && s[|parts[0]| + 1..] == Join(parts[1..]);
    }
  }

  lemma CommaAt(a: string, b: string, comma: bool)
    requires ',' !in a
    ensures comma ==> Comma(a + "," + b) == |a|
    ensures !comma ==> Comma(a) == |a|
  {
    if comma {
      var s := a + "," + b;
      assert s[|a|] == ',' && forall k :: 0 <= k < |a| ==> s[k] == a[k];
    }
  }

  // ---------- The Python form ----------

  /** What `str.strip` removes; on ASCII it also knows the four separator characters. */
  predicate PythonSpace(c: char) {
    IsSpace(c) || '\U{1C}' <= c <= '\U{1F}'
  }

  lemma PythonSpaces(c: char)
    ensures PythonSpace(c) <==> c in " \t\n\U{0B}\U{0C}\r" || c in "\U{1C}\U{1D}\U{1E}\U{1F}"
  {
  }

  /** Text on which both sides agree about whitespace and case. */
  predicate Plain(s: string) {
    forall i :: 0 <= i < |s| ==> s[i] < '\U{80}' && (PythonSpace(s[i]) ==> IsSpace(s[i]))
  }

  function PythonStripLeft(s: string): string {
    if s != [] && PythonSpace(s[0]) then PythonStripLeft(s[1..]) else s
  }

  function PythonStripRight(s: string): string {
    if s != [] && PythonSpace(s[|s| - 1]) then PythonStripRight(s[..|s| - 1]) else s
  }

  function PythonStrip(s: string): string {
    PythonStripRight(PythonStripLeft(s))
  }

  /** `listed`: the set of stripped, lowered, non-blank parts. */
  function Listed(raw: Option<string>): set<string> {
    if raw.None? || PythonStrip(raw.value) == "" then {}
    else set p | p in Split(PythonStrip(raw.value)) && PythonStrip(p) != "" :: Lower(PythonStrip(p))
  }

  lemma {:induction false} PlainStripLeft(s: string)
    requires Plain(s)
    ensures PythonStripLeft(s) == StripLeft(s) && Plain(StripLeft(s))
  {
    if s != [] && IsSpace(s[0]) { PlainStripLeft(s[1..]); }
  }

  lemma {:induction false} PlainStripRight(s: string)
    requires Plain(s)
    ensures PythonStripRight(s) == StripRight(s) && Plain(StripRight(s))
  {
    if s != [] && IsSpace(s[|s| - 1]) { PlainStripRight(s[..|s| - 1]); }
  }

  lemma PlainStrip(s: string)
    requires Plain(s)
    ensures PythonStrip(s) == Strip(s) && Plain(Strip(s))
  {
    PlainStripLeft(s);
    PlainStripRight(StripLeft(s));
  }

  lemma {:induction false} PlainParts(s: string)
    requires Plain(s)
    ensures forall p :: p in Split(s) ==> Plain(p)
    decreases |s|
  {
    var i := Comma(s);
    if i < |s| { PlainParts(s[i + 1..]); }
  }

  /** The C++ scan and the Python set answer alike for every plain variable and every
      non-empty item. */
  lemma ScanAgreesWithSet(raw: Option<string>, item: string)
    requires item != "" && (raw.Some? ==> Plain(raw.value))
    ensures (raw.Some? && Strip(raw.value) != "" && HasPart(Strip(raw.value), item)) <==> Lower(item) in Listed(raw)
  {
    if raw.Some? {
      PlainStrip(raw.value);
      var s := Strip(raw.value);
      PlainParts(s);
      HasPartOfSplit(s, item);
      if HasPart(s, item) {
        var p :| p in Split(s) && SameWord(p, item);
        PlainStrip(p);
        assert |Strip(p)| == |item|;
      }
      if Lower(item) in Listed(raw) {
        var p :| p in Split(s) && Lower(PythonStrip(p)) == Lower(item);
        PlainStrip(p);
        assert SameWord(p, item);
      }
    }
  }

  /** The empty item is where they part: the scan finds it in any blank part, the set
      never holds it.  So they agree on all plain variables exactly for non-empty items. */
  lemma AgreementIffNonEmpty(item: string)
    ensures (forall raw: string :: Plain(raw) ==>
               ((Strip(raw) != "" && HasPart(Strip(raw), item)) <==> Lower(item) in Listed(Some(raw))))
       <==> item != ""
  {
    if item != "" {
      forall raw: string | Plain(raw)
        ensures (Strip(raw) != "" && HasPart(Strip(raw), item)) <==> Lower(item) in Listed(Some(raw))
      {
        ScanAgreesWithSet(Some(raw), item);
      }
    } else {
      var raw := ",";
      assert Strip(raw) == raw;
      assert raw[..Comma(raw)] == "";
      assert Strip("") == "";
      forall x | x in Listed(Some(raw)) ensures x != "" {
        var p :| p in Split(PythonStrip(raw)) && PythonStrip(p) != "" && x == Lower(PythonStrip(p));
        assert |x| == |PythonStrip(p)|;
      }
      assert Plain(raw) && HasPart(Strip(raw), item) && Lower(item) !in Listed(Some(raw));
    }
  }
}
