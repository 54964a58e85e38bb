/** Printing a measurement key as one string, and parsing it back. */
module CompositeKey {
  import opened Common

  datatype Key = Key(sourceId: string, runId: string, fuzzer: string, benchmark: string, fuzzTarget: string)

  datatype ParseError = WrongPartCount

  // ----- String operations -----------------------------------------------------------------------

  /** Replaces every occurrence; occurrences are found from left to right and do not overlap. */
  function Replace(s: string, old_: string, new_: string): string
    requires old_ != ""
  {
    if s == "" then ""
    else if old_ <= s then new_ + Replace(s[|old_|..], old_, new_)
    else [s[0]] + Replace(s[1..], old_, new_)
  }

  /** The parts between the colons. */
  function Split(s: string): (r: seq<string>)
    ensures r != []
  {
    if s == "" then [""]
    else if s[0] == ':' then [""] + Split(s[1..])
    else
      var rest := Split(s[1..]);
      [[s[0]] + rest[0]] + rest[1..]
  }

  /** The parts with a colon between each two. */
  function Join(parts: seq<string>): string {
    if parts == [] then "" else if |parts| == 1 then parts[0] else parts[0] + ":" + Join(parts[1..])
  }

  function Escape(s: string): string {
    Replace(Replace(s, "%", "%25"), ":", "%3A")
  }

  function Unescape(s: string): string {
    Replace(Replace(s, "%3A", ":"), "%25", "%")
  }

  function Parts(k: Key): seq<string> {
    [k.sourceId, k.runId, k.fuzzer, k.benchmark, k.fuzzTarget]
  }

  function EscapeAll(parts: seq<string>): (r: seq<string>)
    ensures |r| == |parts| && forall i :: 0 <= i < |r| ==> r[i] == Escape(parts[i])
  {
    if parts == [] then [] else [Escape(parts[0])] + EscapeAll(parts[1..])
  }

  function UnescapeAll(parts: seq<string>): (r: seq<string>)
    ensures |r| == |parts| && forall i :: 0 <= i < |r| ==> r[i] == Unescape(parts[i])
  {
    if parts == [] then [] else [Unescape(parts[0])] + UnescapeAll(parts[1..])
  }

  function AsId(k: Key): string {
    Join(EscapeAll(Parts(k)))
  }

  function FromId(value: string): Result<Key, ParseError> {
    var parts := UnescapeAll(Split(value));
    if |parts| != 5 then Err(WrongPartCount)
    else Ok(Key(parts[0], parts[1], parts[2], parts[3], parts[4]))
  }

  // ----- Escaping ----------------------------------------------------------------------------------

  /** Escaping character by character. */
  function EscapedChars(s: string): string {
    if s == "" then ""
    else (if s[0] == '%' then "%25" else if s[0] == ':' then "%3A" else [s[0]]) + EscapedChars(s[1..])
  }

  /** Only the percent signs escaped. */
  function PercentEscaped(s: string): string {
    if s == "" then "" else (if s[0] == '%' then "%25" else [s[0]]) + PercentEscaped(s[1..])
  }

  lemma {:induction false} ReplacePercent(s: string)
    ensures Replace(s, "%", "%25") == PercentEscaped(s)
  {
    if s != "" {
      ReplacePercent(s[1..]);
    }
  }

  /** A character that does not begin an occurrence stays. */
  lemma KeepsChar(c: char, s: string, old_: string, new_: string)
    requires old_ != "" && old_[0] != c
    ensures Replace([c] + s, old_, new_) == [c] + Replace(s, old_, new_)
  {
    assert ([c] + s)[1..] == s;
  }

  lemma TakesOccurrence(s: string, old_: string, new_: string)
    requires old_ != ""
    ensures Replace(old_ + s, old_, new_) == new_ + Replace(s, old_, new_)
  {
    assert (old_ + s)[|old_|..] == s;
  }

  /** Two occurrences can only be told apart by their second character. */
  lemma KeepsOther(s: string, new_: string)
    ensures Replace("%25" + s, "%3A", new_) == "%25" + Replace(s, "%3A", new_)
  {
    var t := "%25" + s;
    assert t[1..] == ['2'] + (['5'] + s);
    assert t[1] == '2' && "%3A"[1] == '3';
    assert !("%3A" <= t);
    KeepsChar('2', ['5'] + s, "%3A", new_);
    KeepsChar('5', s, "%3A", new_);
    assert ['%'] + (['2'] + (['5'] + Replace(s, "%3A", new_))) == "%25" + Replace(s, "%3A", new_);
  }

  lemma {:induction false} ReplaceColon(s: string)
    ensures Replace(PercentEscaped(s), ":", "%3A") == EscapedChars(s)
  {
    if s != "" {
      var rest := PercentEscaped(s[1..]);
      ReplaceColon(s[1..]);
      if s[0] == '%' {
        assert "%25" + rest == ['%'] + (['2'] + (['5'] + rest));
        KeepsChar('%', ['2'] + (['5'] + rest), ":", "%3A");
        KeepsChar('2', ['5'] + rest, ":", "%3A");
        KeepsChar('5', rest, ":", "%3A");
      } else if s[0] == ':' {
        TakesOccurrence(rest, ":", "%3A");
      } else {
        KeepsChar(s[0], rest, ":", "%3A");
      }
    }
  }

  lemma {:induction false} UnreplaceColon(s: string)
    ensures Replace(EscapedChars(s), "%3A", ":") == PercentEscaped(s)
  {
    if s != "" {
      var rest := EscapedChars(s[1..]);
      UnreplaceColon(s[1..]);
      if s[0] == '%' {
        KeepsOther(rest, ":");
      } else if s[0] == ':' {
        TakesOccurrence(rest, "%3A", ":");
      } else {
        KeepsChar(s[0], rest, "%3A", ":");
      }
    }
  }

  lemma {:induction false} UnreplacePercent(s: string)
    ensures Replace(PercentEscaped(s), "%25", "%") == s
  {
    if s != "" {
      var rest := PercentEscaped(s[1..]);
      UnreplacePercent(s[1..]);
      if s[0] == '%' {
        TakesOccurrence(rest, "%25", "%");
      } else {
        KeepsChar(s[0], rest, "%25", "%");
      }
    }
  }

  /** Unescaping undoes escaping, whatever the characters. */
  lemma UnescapeEscape(s: string)
    ensures Unescape(Escape(s)) == s
  {
    ReplacePercent(s);
    ReplaceColon(s);
    UnreplaceColon(s);
    UnreplacePercent(s);
  }

  /** Percent signs and colons become their codes, every other character stays, in order. */
  lemma EscapeMeaning(c: char, s: string)
    ensures Escape("") == ""
    ensures Escape([c] + s) == (if c == '%' then "%25" else if c == ':' then "%3A" else [c]) + Escape(s)
  {
    ReplacePercent(s);
    ReplaceColon(s);
    ReplacePercent([c] + s);
    ReplaceColon([c] + s);
    assert ([c] + s)[1..] == s;
  }

  lemma {:induction false} EscapedHasNoColon(s: string)
    ensures ':' !in EscapedChars(s)
  {
    if s != "" {
      EscapedHasNoColon(s[1..]);
    }
  }

  // ----- Splitting ----------------------------------------------------------------------------------

  lemma {:induction false} SplitFirst(part: string, rest: string)
    requires ':' !in part
    ensures Split(part + ":" + rest) == [part] + Split(rest)
    ensures Split(part) == [part]
  {
    var s := part + ":" + rest;
    if part == "" {
      assert s[1..] == rest;
    } else {
      assert s[1..] == part[1..] + ":" + rest;
      SplitFirst(part[1..], rest);
      assert [part[0]] + part[1..] == part;
      assert ([part[1..]] + Split(rest))[1..] == Split(rest);
    }
  }

  lemma {:induction false} SplitJoin(parts: seq<string>)
    requires parts != [] && forall i :: 0 <= i < |parts| ==> ':' !in parts[i]
    ensures Split(Join(parts)) == parts
  {
    if |parts| == 1 {
      SplitFirst(parts[0], "");
    } else {
      SplitFirst(parts[0], Join(parts[1..]));
      SplitJoin(parts[1..]);
    }
  }

  /** The five escaped parts with colons between them. */
  lemma IdMeaning(k: Key)
    ensures AsId(k) == Escape(k.sourceId) + ":" + Escape(k.runId) + ":" + Escape(k.fuzzer) + ":" +
                       Escape(k.benchmark) + ":" + Escape(k.fuzzTarget)
  {
    var e := EscapeAll(Parts(k));
    assert e == [e[0], e[1], e[2], e[3], e[4]];
    JoinFive(e[0], e[1], e[2], e[3], e[4]);
  }

  lemma JoinFive(a: string, b: string, c: string, d: string, e: string)
    ensures Join([a, b, c, d, e]) == a + ":" + b + ":" + c + ":" + d + ":" + e
  {
    JoinTwo(a, [b, c, d, e]);
    assert [a] + [b, c, d, e] == [a, b, c, d, e];
    JoinTwo(b, [c, d, e]);
    assert [b] + [c, d, e] == [b, c, d, e];
    JoinTwo(c, [d, e]);
    assert [c] + [d, e] == [c, d, e];
    JoinTwo(d, [e]);
    assert [d] + [e] == [d, e];
    Regroup(c, d, e);
    Regroup(b, c + ":" + d, e);
    Regroup(b, c, d);
    Regroup(a, b + ":" + c + ":" + d, e);
    Regroup(a, b + ":" + c, d);
    Regroup(a, b, c);
  }

  lemma JoinTwo(first: string, rest: seq<string>)
    requires rest != []
    ensures Join([first] + rest) == first + ":" + Join(rest)
  {
    assert ([first] + rest)[1..] == rest;
  }

  lemma Regroup(a: string, b: string, c: string)
    ensures a + ":" + (b + ":" + c) == a + ":" + b + ":" + c
  {
  }

  /** Parsing a printed key gives it back, whatever characters its parts contain. */
  lemma KeyRoundTrip(k: Key)
    ensures FromId(AsId(k)) == Ok(k)
  {
    var escaped := EscapeAll(Parts(k));
    forall i | 0 <= i < 5 ensures ':' !in escaped[i] && Unescape(escaped[i]) == Parts(k)[i] {
      ReplacePercent(Parts(k)[i]);
      ReplaceColon(Parts(k)[i]);
      EscapedHasNoColon(Parts(k)[i]);
      UnescapeEscape(Parts(k)[i]);
    }
    SplitJoin(escaped);
    assert UnescapeAll(escaped) == Parts(k);
  }

  /** Different keys never share an id. */
  lemma IdsAreInjective(k: Key, l: Key)
    ensures AsId(k) == AsId(l) <==> k == l
  {
    KeyRoundTrip(k);
    KeyRoundTrip(l);
  }

  function Colons(s: string): nat {
    if s == "" then 0 else (if s[0] == ':' then 1 else 0) + Colons(s[1..])
  }

  lemma {:induction false} SplitCounts(s: string)
    ensures |Split(s)| == Colons(s) + 1
  {
    if s != "" {
      SplitCounts(s[1..]);
    }
  }

  /** Any string with four colons parses, and no other. */
  lemma ParsesExactlyWhen(value: string)
    ensures FromId(value).Ok? <==> Colons(value) == 4
  {
    SplitCounts(value);
  }
}
