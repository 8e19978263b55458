/**
 * The name under which `downloadBadge` saves the badge: an empty name first
 * becomes "AWS-Community"; the name is then trimmed, each run of whitespace
 * becomes one hyphen, every character outside `[A-Za-z0-9-_]` is deleted,
 * the result is cut to 50 characters, an empty result becomes "Guest", and
 * the whole is wrapped as `AWS-Badge-<name>.png`.
 */
module FileName {
  import opened Text

  /** Stands in for an empty `userName` before sanitising. */
  const CommunityLabel: string := "AWS-Community"
  /** Stands in for a sanitised name that came out empty. */
  const GuestLabel: string := "Guest"
  const Prefix: string := "AWS-Badge-"
  const Suffix: string := ".png"
  /** The longest sanitised name that is kept. */
  const MaxNameLength: nat := 50

  /** A character that survives the `[^a-zA-Z0-9-_]` deletion. */
  predicate IsSafeChar(c: char) {
    ('a' <= c <= 'z') || ('A' <= c <= 'Z') || ('0' <= c <= '9') || c == '-' || c == '_'
  }

  predicate AllSafe(s: string) {
    forall i :: 0 <= i < |s| ==> IsSafeChar(s[i])
  }

  /** What a sanitised name looks like: only safe characters, at most 50 of them. */
  predicate IsSafeName(s: string) {
    |s| <= MaxNameLength && AllSafe(s)
  }

  /**
   * `replace(/\s+/g, '-')`: every maximal run of whitespace becomes a single
   * hyphen. The text never gets longer, and only the empty text hyphenates to
   * nothing.
   */
  function Hyphenate(s: string): (r: string)
    ensures |r| <= |s|
    ensures r == [] <==> s == []
    decreases |s|
  {
    if s == [] then []
    else if IsSpace(s[0]) then "-" + Hyphenate(s[LeadingSpaces(s)..])
    else [s[0]] + Hyphenate(s[1..])
  }

  /**
   * `replace(/[^a-zA-Z0-9-_]/g, '')`: keeps the safe characters, in order
   * (see `StripCounts` and `StripAppend`).
   */
  function Strip(s: string): (r: string)
    ensures AllSafe(r)
    ensures |r| <= |s|
    ensures AllSafe(s) ==> r == s
    ensures forall i :: 0 <= i < |s| && IsSafeChar(s[i]) ==> s[i] in r
  {
    if s == [] then []
    else if IsSafeChar(s[0]) then [s[0]] + Strip(s[1..])
    else Strip(s[1..])
  }

  /** `substring(0, 50)`: the first 50 characters, or all of them when there are fewer. */
  function Truncate(s: string): (r: string)
    ensures |r| <= MaxNameLength
    ensures r <= s
    ensures |s| <= MaxNameLength ==> r == s
    ensures |s| > MaxNameLength ==> |r| == MaxNameLength
  {
    if |s| <= MaxNameLength then s else s[..MaxNameLength]
  }

  /** The sanitising pipeline applied to a (non-defaulted) name. */
  function Sanitize(name: string): (r: string)
    ensures IsSafeName(r)
  {
    Truncate(Strip(Hyphenate(Trim(name))))
  }

  /** `userName || 'AWS-Community'`: the empty string is falsy in JavaScript. */
  function NameOrCommunity(userName: string): (r: string)
    ensures r != []
    ensures userName != [] ==> r == userName
    ensures userName == [] ==> r == CommunityLabel
  {
    if userName == [] then CommunityLabel else userName
  }

  /** `safeName || 'Guest'`. */
  function SafeNameOrGuest(userName: string): (r: string)
    ensures IsSafeName(r) && r != []
  {
    GuestLabelSafe();
    var safe := Sanitize(NameOrCommunity(userName));
    if safe == [] then GuestLabel else safe
  }

  /** "Guest" is itself a safe name. */
  lemma GuestLabelSafe()
    ensures GuestLabel != [] && IsSafeName(GuestLabel)
  {
  }

  /** The download file name for the current `userName`. */
  function BadgeFileName(userName: string): (r: string)
    ensures |Prefix| + |Suffix| < |r| <= |Prefix| + MaxNameLength + |Suffix|
    ensures r[..|Prefix|] == Prefix && r[|r| - |Suffix|..] == Suffix
    ensures IsSafeName(r[|Prefix|..|r| - |Suffix|])
  {
    var name := SafeNameOrGuest(userName);
    Wrapped(Prefix, name, Suffix);
    Prefix + name + Suffix
  }

  /** The three parts of `p + m + q` can be read back by slicing. */
  lemma Wrapped(p: string, m: string, q: string)
    ensures (p + m + q)[..|p|] == p
    ensures (p + m + q)[|p + m + q| - |q|..] == q
    ensures (p + m + q)[|p|..|p + m + q| - |q|] == m
  {
  }

  // ---------------------------------------------------------------------------
  // Properties of the pipeline
  // ---------------------------------------------------------------------------

  /** A leading non-space character passes through Hyphenate unchanged. */
  lemma HyphenateCons(c: char, rest: string)
    requires !IsSpace(c)
    ensures Hyphenate([c] + rest) == [c] + Hyphenate(rest)
  {
    assert ([c] + rest)[1..] == rest;
  }

  /**
   * The first step of the hyphenation: a leading whitespace run becomes one
   * `-`, any other leading character is kept, and the rest is hyphenated.
   */
  lemma HyphenateHead(s: string)
    requires s != []
    ensures IsSpace(s[0]) ==> Hyphenate(s) == "-" + Hyphenate(s[LeadingSpaces(s)..])
    ensures !IsSpace(s[0]) ==> Hyphenate(s) == [s[0]] + Hyphenate(s[1..])
  {
  }

  /** The first hyphenated character comes from the first input character or its whitespace run. */
  lemma HyphenateFirst(s: string, i: nat)
    requires i < |s| && (i == 0 || (IsSpace(s[0]) && i < LeadingSpaces(s)))
    ensures Hyphenate(s) != [] && Hyphenate(s)[0] == HyphenChar(s[i])
  {
    HyphenateHead(s);
  }

  /** After the first step, the hyphenated text continues with the hyphenated rest. */
  lemma HyphenateShift(s: string, k: nat, j: nat)
    requires s != [] && k == (if IsSpace(s[0]) then LeadingSpaces(s) else 1)
    requires j < |Hyphenate(s[k..])|
    ensures j + 1 < |Hyphenate(s)| && Hyphenate(s)[j + 1] == Hyphenate(s[k..])[j]
  {
    HyphenateHead(s);
  }

  /** A name with no whitespace keeps its leading characters through Hyphenate. */
  lemma {:induction false} HyphenateNoSpacePrefix(a: string, t: string)
    requires NoSpace(a)
    ensures Hyphenate(a + t) == a + Hyphenate(t)
    decreases |a|
  {
    if a == [] {
      assert a + t == t;
    } else {
      assert a + t == [a[0]] + (a[1..] + t);
      HyphenateCons(a[0], a[1..] + t);
      HyphenateNoSpacePrefix(a[1..], t);
      assert a == [a[0]] + a[1..];
    }
  }

  /** Hyphenate leaves no whitespace behind. */
  lemma {:induction false} HyphenateRemovesSpace(s: string)
    ensures NoSpace(Hyphenate(s))
    decreases |s|
  {
    if s != [] {
      if IsSpace(s[0]) {
        HyphenateRemovesSpace(s[LeadingSpaces(s)..]);
      } else {
        HyphenateRemovesSpace(s[1..]);
      }
    }
  }

  /** A name without whitespace is left as it is. */
  lemma {:induction false} HyphenateNoSpace(s: string)
    requires NoSpace(s)
    ensures Hyphenate(s) == s
  {
    HyphenateNoSpacePrefix(s, []);
    assert s + [] == s;
  }

  /** A run of whitespace in front of a word becomes one hyphen. */
  lemma HyphenateSpaceRun(w: string, b: string)
    requires w != [] && AllSpace(w)
    requires b == [] || !IsSpace(b[0])
    ensures Hyphenate(w + b) == "-" + Hyphenate(b)
  {
    var s := w + b;
    assert s[0] == w[0];
    if |w| < |s| {
      assert s[|w|] == b[0];
    }
    assert LeadingSpaces(s) == |w|;
    assert s[|w|..] == b;
  }

  /**
   * A name is left unchanged by sanitising exactly when it is already a safe
   * name: trim, hyphenation, stripping and truncation each leave it alone.
   */
  lemma SanitizeFixpoint(s: string)
    ensures Sanitize(s) == s <==> IsSafeName(s)
    ensures IsSafeName(s) ==> Trim(s) == s && Hyphenate(s) == s && Strip(s) == s && Truncate(s) == s
  {
    if IsSafeName(s) {
      SafeNoSpace(s);
      assert Trim(s) == s;
      HyphenateNoSpace(s);
    }
  }

  /** Sanitising is idempotent. */
  lemma SanitizeIdempotent(name: string)
    ensures Sanitize(Sanitize(name)) == Sanitize(name)
  {
    SanitizeFixpoint(Sanitize(name));
  }

  /** The file name of an already sanitised, non-empty name wraps that very name. */
  lemma SafeNameFileName(s: string)
    requires s != [] && IsSafeName(s)
    ensures BadgeFileName(s) == Prefix + s + Suffix
  {
    SanitizeFixpoint(s);
  }

  /** An ASCII letter, digit, hyphen or underscore is never whitespace. */
  lemma SafeNoSpace(s: string)
    requires AllSafe(s)
    ensures NoSpace(s)
  {
    forall i | 0 <= i < |s| ensures !IsSpace(s[i]) { assert IsSafeChar(s[i]); }
  }

  /** Hyphenate turns the whitespace run between two space-free words into one hyphen. */
  lemma HyphenateJoin(a: string, w: string, b: string)
    requires NoSpace(a) && b != [] && NoSpace(b)
    requires w != [] && AllSpace(w)
    ensures Hyphenate(a + w + b) == a + "-" + b
  {
    assert a + w + b == a + (w + b);
    HyphenateNoSpacePrefix(a, w + b);
    assert !IsSpace(b[0]);
    HyphenateSpaceRun(w, b);
    HyphenateNoSpace(b);
  }

  /**
   * Two words separated by any run of whitespace are joined by one hyphen,
   * whatever the run's length.
   */
  lemma JoinWords(a: string, w: string, b: string)
    requires a != [] && AllSafe(a) && b != [] && AllSafe(b)
    requires w != [] && AllSpace(w)
    ensures Sanitize(a + w + b) == Truncate(a + "-" + b)
  {
    SafeNoSpace(a);
    SafeNoSpace(b);
    var s := a + w + b;
    assert Trim(s) == s by {
      assert s[0] == a[0] && s[|s| - 1] == b[|b| - 1];
    }
    HyphenateJoin(a, w, b);
    assert AllSafe(a + "-" + b);
  }

  /** An empty name falls back to the community label. */
  lemma EmptyNameFileName()
    ensures BadgeFileName("") == Prefix + CommunityLabel + Suffix
  {
    assert IsSafeName(CommunityLabel);
    SanitizeFixpoint(CommunityLabel);
  }

  /** A name made only of whitespace (but not empty) sanitises to nothing: "Guest". */
  lemma BlankNameFileName(userName: string)
    requires userName != [] && AllSpace(userName)
    ensures BadgeFileName(userName) == Prefix + GuestLabel + Suffix
  {
  }

  /** Nothing in `s` survives sanitising: no safe character and no whitespace to become `-`. */
  predicate NothingToKeep(s: string) {
    forall i :: 0 <= i < |s| ==> !IsSafeChar(s[i]) && !IsSpace(s[i])
  }

  /**
   * A name sanitises to nothing exactly when its trimmed form has no safe
   * character and no inner whitespace.
   */
  lemma SanitizeEmpty(userName: string)
    ensures Sanitize(userName) == [] <==> NothingToKeep(Trim(userName))
  {
    var t := Trim(userName);
    if NothingToKeep(t) {
      HyphenateNoSpace(t);
      NothingSafeStrips(t);
    } else {
      var i :| 0 <= i < |t| && (IsSafeChar(t[i]) || IsSpace(t[i]));
      var h := Hyphenate(t);
      var j := HyphenateKeepsSafe(t, i);
      assert h[j] in Strip(h);
    }
  }

  /** What a single input character turns into under the hyphenation. */
  function HyphenChar(c: char): char {
    if IsSpace(c) then '-' else c
  }

  /**
   * A safe character of the input is kept in the hyphenated text, and a
   * whitespace character leaves the `-` of its run there; either way the
   * hyphenated text holds a safe character.
   */
  lemma {:induction false} HyphenateKeepsSafe(s: string, i: nat) returns (j: nat)
    requires i < |s| && (IsSafeChar(s[i]) || IsSpace(s[i]))
    ensures j < |Hyphenate(s)| && Hyphenate(s)[j] == HyphenChar(s[i])
    ensures IsSafeChar(Hyphenate(s)[j])
    decreases |s|
  {
    var k := if IsSpace(s[0]) then LeadingSpaces(s) else 1;
    if i < k {
      j := 0;
      HyphenateFirst(s, i);
    } else {
      assert s[k..][i - k] == s[i];
      var j' := HyphenateKeepsSafe(s[k..], i - k);
      j := j' + 1;
      HyphenateShift(s, k, j');
    }
  }

  /** A non-empty name whose trimmed form has nothing to keep is saved as "Guest". */
  lemma InvalidNameFileName(userName: string)
    requires userName != [] && NothingToKeep(Trim(userName))
    ensures BadgeFileName(userName) == Prefix + GuestLabel + Suffix
  {
    SanitizeEmpty(userName);
  }

  /** Text with no safe character strips to nothing. */
  lemma {:induction false} NothingSafeStrips(s: string)
    requires forall i :: 0 <= i < |s| ==> !IsSafeChar(s[i])
    ensures Strip(s) == []
    decreases |s|
  {
    if s != [] {
      NothingSafeStrips(s[1..]);
    }
  }

  /**
   * Stripping only deletes: each safe character occurs as often as in the
   * input, and no other character occurs at all.
   */
  lemma {:induction false} StripCounts(s: string)
    ensures forall c :: multiset(Strip(s))[c] == if IsSafeChar(c) then multiset(s)[c] else 0
    decreases |s|
  {
    if s != [] {
      assert s == [s[0]] + s[1..];
      StripCounts(s[1..]);
    }
  }

  /** Stripping keeps the order of what survives: it works piece by piece. */
  lemma {:induction false} StripAppend(a: string, b: string)
    ensures Strip(a + b) == Strip(a) + Strip(b)
    decreases |a|
  {
    if a == [] {
      assert a + b == b;
    } else {
      assert (a + b)[0] == a[0];
      assert (a + b)[1..] == a[1..] + b;
      StripAppend(a[1..], b);
    }
  }

  /** The worked example: "Ada Lovelace" is saved as AWS-Badge-Ada-Lovelace.png. */
  lemma AdaLovelaceFileName()
    ensures BadgeFileName("Ada Lovelace") == Prefix + "Ada-Lovelace" + Suffix
  {
    var first, gap, last := "Ada", " ", "Lovelace";
    assert "Ada Lovelace" == first + gap + last;
    assert first + "-" + last == "Ada-Lovelace";
    JoinWords(first, gap, last);
    assert Sanitize("Ada Lovelace") == "Ada-Lovelace";
    assert SafeNameOrGuest("Ada Lovelace") == "Ada-Lovelace";
  }

  /**
   * The name stored after trimming and the name as typed give the same file
   * name, so trimming before storing `userName` loses nothing.
   */
  lemma TrimmedNameFileName(typed: string)
    requires Trim(typed) != []
    ensures BadgeFileName(Trim(typed)) == BadgeFileName(typed)
  {
    TrimIdempotent(typed);
  }
}
