/**
 * The two pieces of app/config.py the core uses: the CORS origin list parsed
 * from its comma-separated setting, and the institution's routing number.
 */
module Config {

  /** The default setting, "http://localhost:3000,http://localhost:8080". */
  const DefaultCorsOrigins := FrontendOrigin + "," + AlternateOrigin
  const FrontendOrigin := "http://localhost:3000"
  const AlternateOrigin := "http://localhost:8080"

  /** The institution's own routing number when the environment sets none. */
  const DefaultRoutingNumber := "123456789"

  /** Python's str.isspace: the characters str.strip() removes by default. */
  predicate IsSpace(c: char) {
    '\U{0009}' <= c <= '\U{000D}' || '\U{001C}' <= c <= '\U{0020}'
    || c == '\U{0085}' || c == '\U{00A0}' || c == '\U{1680}'
    || '\U{2000}' <= c <= '\U{200A}' || c == '\U{2028}' || c == '\U{2029}'
    || c == '\U{202F}' || c == '\U{205F}' || c == '\U{3000}'
  }

  /** Occurrences of `c` in `s`. */
  function Count(s: string, c: char): nat {
    if s == [] then 0 else (if s[0] == c then 1 else 0) + Count(s[1..], c)
  }

  /** str.split(sep) with a one-character separator. */
  function Split(s: string, sep: char): (parts: seq<string>)
    ensures |parts| >= 1
    ensures forall i | 0 <= i < |parts| :: sep !in parts[i]
  {
    if s == [] then [""]
    else
      var rest := Split(s[1..], sep);
      if s[0] == sep then [""] + rest
      else [[s[0]] + rest[0]] + rest[1..]
  }

  /** str.join: the parts with `sep` between them. */
  function Join(parts: seq<string>, sep: char): string
    requires |parts| >= 1
  {
    if |parts| == 1 then parts[0] else parts[0] + [sep] + Join(parts[1..], sep)
  }

  /** Splitting loses nothing: joining the parts again gives back the input. */
  lemma {:induction false} JoinSplit(s: string, sep: char)
    ensures Join(Split(s, sep), sep) == s
  {
    if s != [] {
      JoinSplit(s[1..], sep);
      var rest := Split(s[1..], sep);
      if s[0] != sep && |rest| > 1 {
        assert rest == [rest[0]] + rest[1..];
      }
    }
  }

  /** There is one more part than there are separators. */
  lemma {:induction false} SplitLength(s: string, sep: char)
    ensures |Split(s, sep)| == Count(s, sep) + 1
  {
    if s != [] {
      SplitLength(s[1..], sep);
    }
  }

  /** str.lstrip() */
  function StripLeft(s: string): (r: string)
    ensures |r| <= |s| && r == s[|s| - |r|..]
    ensures r != [] ==> !IsSpace(r[0])
    ensures forall i | 0 <= i < |s| - |r| :: IsSpace(s[i])
  {
    if s != [] && IsSpace(s[0]) then StripLeft(s[1..]) else s
  }

  /** str.rstrip() */
  function StripRight(s: string): (r: string)
    ensures |r| <= |s| && r == s[..|r|]
    ensures r != [] ==> !IsSpace(r[|r| - 1])
    ensures forall i | |r| <= i < |s| :: IsSpace(s[i])
  {
    if s != [] && IsSpace(s[|s| - 1]) then StripRight(s[..|s| - 1]) else s
  }

  /** How many whitespace characters str.strip() removes from the front of `s`. */
  function LeadingSpaces(s: string): nat {
    |s| - |StripLeft(s)|
  }

  /** str.strip(): the slice of `s` left after removing whitespace from both ends. */
  function Strip(s: string): (r: string)
    ensures r != [] ==> !IsSpace(r[0]) && !IsSpace(r[|r| - 1])
    ensures LeadingSpaces(s) + |r| <= |s| && r == s[LeadingSpaces(s)..LeadingSpaces(s) + |r|]
    ensures forall k | 0 <= k < LeadingSpaces(s) :: IsSpace(s[k])
    ensures forall k | LeadingSpaces(s) + |r| <= k < |s| :: IsSpace(s[k])
  {
    var left := StripLeft(s);
    var r := StripRight(left);
    StripSlices(s, left, r);
    r
  }

  /** What stripping the left end and then the right end leaves of `s`, in terms of `s`. */
  lemma StripSlices(s: string, left: string, r: string)
    requires |left| <= |s| && left == s[|s| - |left|..]
    requires |r| <= |left| && r == left[..|r|]
    requires forall i | |r| <= i < |left| :: IsSpace(left[i])
    ensures |s| - |left| + |r| <= |s| && r == s[|s| - |left|..|s| - |left| + |r|]
    ensures forall k | |s| - |left| + |r| <= k < |s| :: IsSpace(s[k])
  {
    var i := |s| - |left|;
    assert left == s[i..];
    assert r == left[..|r|];
    assert r == s[i..i + |r|];
    forall k | i + |r| <= k < |s| ensures IsSpace(s[k]) {
      assert s[k] == left[k - i];
    }
  }

  /** A string with no whitespace at either end is its own strip. */
  lemma StripUnchanged(s: string)
    requires s != [] && !IsSpace(s[0]) && !IsSpace(s[|s| - 1])
    ensures Strip(s) == s
  {
  }

  /**
   * Settings.cors_origins_list: one origin per comma-separated segment, in order,
   * each stripped of surrounding whitespace.
   */
  function CorsOriginsList(corsOrigins: string): (origins: seq<string>)
    ensures |origins| == |Split(corsOrigins, ',')| == Count(corsOrigins, ',') + 1
    ensures forall i | 0 <= i < |origins| ::
      origins[i] == Strip(Split(corsOrigins, ',')[i]) && ',' !in origins[i]
      && (origins[i] != [] ==> !IsSpace(origins[i][0]) && !IsSpace(origins[i][|origins[i]| - 1]))
  {
    SplitLength(corsOrigins, ',');
    var parts := Split(corsOrigins, ',');
    var origins := seq(|parts|, i requires 0 <= i < |parts| => Strip(parts[i]));
    assert forall i | 0 <= i < |origins| :: ',' !in origins[i] by {
      forall i | 0 <= i < |origins| ensures ',' !in origins[i] {
        StripOmits(parts[i], ',');
      }
    }
    origins
  }

  /** Stripping adds no character: one absent from `s` is absent from its strip. */
  lemma StripOmits(s: string, c: char)
    requires c !in s
    ensures c !in Strip(s)
  {
    var r := Strip(s);
    forall k | 0 <= k < |r| ensures r[k] != c {
      assert r[k] == s[LeadingSpaces(s) + k];
    }
  }

  /** Splitting at the first separator. */
  lemma SplitFirst(a: string, b: string, sep: char)
    requires sep !in a
    ensures Split(a + [sep] + b, sep) == [a] + Split(b, sep)
  {
    if a == [] {
      assert ([sep] + b)[1..] == b;
    } else {
      SplitFirst(a[1..], b, sep);
      assert (a + [sep] + b)[1..] == a[1..] + [sep] + b;
      assert a == [a[0]] + a[1..];
    }
  }

  /** A string containing no separator splits into itself. */
  lemma SplitNone(a: string, sep: char)
    requires sep !in a
    ensures Split(a, sep) == [a]
  {
    if a != [] {
      SplitNone(a[1..], sep);
      assert a == [a[0]] + a[1..];
    }
  }

  /** The default setting has two comma-separated segments. */
  lemma DefaultCorsOriginsSplit()
    ensures Split(DefaultCorsOrigins, ',') == [FrontendOrigin, AlternateOrigin]
  {
    assert ',' !in FrontendOrigin && ',' !in AlternateOrigin;
    SplitNone(AlternateOrigin, ',');
    SplitFirst(FrontendOrigin, AlternateOrigin, ',');
  }

  /** Two segments that need no stripping are the two origins. */
  lemma TwoOrigins(corsOrigins: string, first: string, second: string)
    requires Split(corsOrigins, ',') == [first, second]
    requires Strip(first) == first && Strip(second) == second
    ensures CorsOriginsList(corsOrigins) == [first, second]
  {
  }

  /** The default setting yields the two local development origins. */
  lemma DefaultCorsOriginsList()
    ensures CorsOriginsList(DefaultCorsOrigins) == ["http://localhost:3000", "http://localhost:8080"]
  {
    DefaultCorsOriginsSplit();
    StripUnchanged(FrontendOrigin);
    StripUnchanged(AlternateOrigin);
    TwoOrigins(DefaultCorsOrigins, FrontendOrigin, AlternateOrigin);
  }
}
