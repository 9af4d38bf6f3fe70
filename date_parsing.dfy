/** `parseISODate`: the timestamp normalisation applied before the host's
    date parser. It turns the first space into 'T' (so "YYYY-MM-DD HH:mm:ss"
    becomes "YYYY-MM-DDTHH:mm:ss"), keeps at most three ':'-separated parts
    and appends ":00" to a 'T'-string that has only hours and minutes. The
    host parser itself (`new Date(s).getTime()`) is not visible: it is the
    parameter `engine`, None standing for an invalid date. */
module DateParsing {
  import opened Base

  /** `s.replace(from, to)` with a one-character pattern: the first
      occurrence only. */
  function ReplaceFirst(s: string, from: char, to: char): string
  {
    if s == [] then []
    else if s[0] == from then [to] + s[1..]
    else [s[0]] + ReplaceFirst(s[1..], from, to)
  }

  /** The index of the first c in s, or |s| when there is none. */
  function IndexOf(s: string, c: char): (i: nat)
    ensures i <= |s|
    ensures i < |s| ==> s[i] == c
    ensures forall k :: 0 <= k < i ==> s[k] != c
  {
    if s == [] then 0
    else if s[0] == c then 0
    else 1 + IndexOf(s[1..], c)
  }

  /** Only the first occurrence changes, and nothing else does. */
  lemma {:induction false} ReplaceFirstChangesOne(s: string, from: char, to: char)
    ensures |ReplaceFirst(s, from, to)| == |s|
    ensures forall k :: 0 <= k < |s| ==>
      ReplaceFirst(s, from, to)[k] == (if k == IndexOf(s, from) then to else s[k])
  {
    if s != [] && s[0] != from {
      ReplaceFirstChangesOne(s[1..], from, to);
    }
  }

  /** `s.split(sep)` with a one-character separator. */
  function Split(s: string, sep: char): (parts: seq<string>)
    ensures |parts| >= 1
    ensures forall k :: 0 <= k < |parts| ==> sep !in parts[k]
    decreases |s|
  {
    if s == [] then [""]
    else
      var rest := Split(s[1..], sep);
      if s[0] == sep then [""] + rest
      else [[s[0]] + rest[0]] + rest[1..]
  }

  /** `parts.join(sep)`. */
  function Join(parts: seq<string>, sep: char): string
    requires |parts| >= 1
    decreases |parts|
  {
    if |parts| == 1 then parts[0] else parts[0] + [sep] + Join(parts[1..], sep)
  }

  /** Joining the parts of a split gives the string back. */
  lemma {:induction false} JoinSplit(s: string, sep: char)
    ensures Join(Split(s, sep), sep) == s
    decreases |s|
  {
    if s != [] {
      var rest := Split(s[1..], sep);
      JoinSplit(s[1..], sep);
      if s[0] == sep {
        assert ([""] + rest)[1..] == rest;
      } else {
        var parts := [[s[0]] + rest[0]] + rest[1..];
        if |rest| > 1 {
          assert parts[1..] == rest[1..];
          assert Join(rest, sep) == rest[0] + [sep] + Join(rest[1..], sep);
        }
      }
    }
  }

  /** A separator splits a string into the parts of its two sides. */
  lemma {:induction false} SplitAround(a: string, b: string, sep: char)
    requires sep !in a
    ensures Split(a + [sep] + b, sep) == [a] + Split(b, sep)
    decreases |a|
  {
    if a == [] {
      assert [] + [sep] + b == [sep] + b;
      assert ([sep] + b)[1..] == b;
    } else {
      var s := a + [sep] + b;
      assert s[1..] == a[1..] + [sep] + b;
      SplitAround(a[1..], b, sep);
      assert [a[0]] + a[1..] == a;
    }
  }

  /** Splitting what was joined from separator-free parts gives the parts. */
  lemma {:induction false} SplitJoin(parts: seq<string>, sep: char)
    requires |parts| >= 1
    requires forall k :: 0 <= k < |parts| ==> sep !in parts[k]
    ensures Split(Join(parts, sep), sep) == parts
    decreases |parts|
  {
    if |parts| == 1 {
      SplitFree(parts[0], sep);
    } else {
      SplitJoin(parts[1..], sep);
      SplitAround(parts[0], Join(parts[1..], sep), sep);
      assert [parts[0]] + parts[1..] == parts;
    }
  }

  /** A string without the separator is a single part. */
  lemma {:induction false} SplitFree(p: string, sep: char)
    requires sep !in p
    ensures Split(p, sep) == [p]
    decreases |p|
  {
    if p != [] {
      SplitFree(p[1..], sep);
      assert [p[0]] + p[1..] == p;
    }
  }

  /** Joining the first k parts gives a prefix of the whole join, followed by
      a separator. */
  lemma {:induction false} JoinPrefix(parts: seq<string>, k: nat, sep: char)
    requires 0 < k < |parts|
    ensures Join(parts[..k], sep) + [sep] <= Join(parts, sep)
    decreases k
  {
    if k > 1 {
      JoinPrefix(parts[1..], k - 1, sep);
      assert parts[1..][..k - 1] == parts[..k][1..];
      var head := parts[0] + [sep];
      assert Join(parts[..k], sep) == head + Join(parts[1..][..k - 1], sep);
      assert Join(parts, sep) == head + Join(parts[1..], sep);
    }
  }

  /** The string that `parseISODate` hands to the host's date parser. */
  function Normalize(dateStr: string): string
  {
    var formatted := ReplaceFirst(dateStr, ' ', 'T');
    var cut :=
      if |Split(formatted, ':')| > 3 then Join(Split(formatted, ':')[..3], ':')
      else formatted;
    if 'T' in cut && |Split(cut, ':')| == 2 then cut + ":00" else cut
  }

  /** What the normalisation does, stated on the string after the first
      space has become 'T': at most three ':'-parts survive; with more, the
      text before the third ':' is kept; a 'T'-string with hours and minutes
      only gains ":00"; any other string passes unchanged. */
  lemma NormalizeShape(dateStr: string)
    ensures var formatted := ReplaceFirst(dateStr, ' ', 'T');
            var parts := Split(formatted, ':');
            && |Split(Normalize(dateStr), ':')| <= 3
            && (|parts| > 3 ==>
                  Normalize(dateStr) + ":" <= formatted
                  && |Split(Normalize(dateStr), ':')| == 3)
            && ('T' in formatted && |parts| == 2 ==> Normalize(dateStr) == formatted + ":00")
            && (|parts| <= 3 && !('T' in formatted && |parts| == 2) ==>
                  Normalize(dateStr) == formatted)
  {
    var formatted := ReplaceFirst(dateStr, ' ', 'T');
    var parts := Split(formatted, ':');
    if |parts| > 3 {
      var cut := Join(parts[..3], ':');
      JoinSplit(formatted, ':');
      JoinPrefix(parts, 3, ':');
      SplitJoin(parts[..3], ':');
      assert Normalize(dateStr) == cut;
    } else if 'T' in formatted && |parts| == 2 {
      JoinSplit(formatted, ':');
      assert Join(parts, ':') == parts[0] + [':'] + parts[1];
      var tail := parts[1] + [':'] + "00";
      assert formatted + ":00" == parts[0] + [':'] + tail;
      SplitAround(parts[0], tail, ':');
      SplitFree("00", ':');
      SplitAround(parts[1], "00", ':');
    }
  }

  /** `parseISODate`: the instant the string denotes, or None when the string
      is empty or the host parser rejects its normalised form. */
  function ParseISODate(dateStr: string, engine: string -> Option<int>): (r: Option<int>)
    ensures dateStr == "" ==> r == None
    ensures dateStr != "" ==> r == engine(Normalize(dateStr))
  {
    if dateStr == "" then None else engine(Normalize(dateStr))
  }

  /** `parseISODate` as a function value, for the callers that take the
      timestamp parser as a parameter. */
  function Parser(engine: string -> Option<int>): string -> Option<int>
  {
    s => ParseISODate(s, engine)
  }
}
