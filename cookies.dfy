/** `getCookie` (static/js/main2.js): a simplified reader of the cookie
    string of section 4.2.1 of RFC 6265. The string is split on ';', each
    entry is trimmed, and every entry that begins with `name=` overwrites the
    result with the decoded rest of the entry, so the last such entry wins.

    `decodeURIComponent` is a parameter: it yields `None` where the real
    function throws a URIError, which aborts the lookup. */
module Cookies {
  import opened Wrappers
  import opened Text

  /** The outcome of a lookup: `null`, a decoded value, or the URIError
      thrown while decoding. */
  datatype CookieResult = NotFound | Value(value: string) | Malformed

  /** The trimmed entry begins with `name=`. */
  predicate EntryMatches(entry: string, name: string) {
    StartsWith(Trim(entry), name + "=")
  }

  /** The text after `name=` in a matching trimmed entry: everything from
      offset `|name| + 1` on. */
  function EntryValue(entry: string, name: string): string
    requires EntryMatches(entry, name)
  {
    Trim(entry)[|name| + 1..]
  }

  /** A matching entry is `name=` followed by its value, after trimming. */
  lemma EntryValueFollowsName(entry: string, name: string)
    requires EntryMatches(entry, name)
    ensures Trim(entry) == name + "=" + EntryValue(entry, name)
  {
    var t := Trim(entry);
    assert t == t[..|name| + 1] + t[|name| + 1..];
  }

  /** Entry `i` matches and no later entry does. */
  predicate IsLastMatch(entries: seq<string>, name: string, i: int) {
    && 0 <= i < |entries|
    && EntryMatches(entries[i], name)
    && forall j :: i < j < |entries| ==> !EntryMatches(entries[j], name)
  }

  /** For each entry, the text after `name=` when it matches, else `None`. */
  function Candidates(entries: seq<string>, name: string): (c: seq<Option<string>>)
    ensures |c| == |entries|
  {
    seq(|entries|, i requires 0 <= i < |entries| =>
      if EntryMatches(entries[i], name) then Some(EntryValue(entries[i], name)) else None)
  }

  /** The lookup as a left-to-right pass over the candidate values, carrying
      the value found so far: a candidate replaces it with its decoded form,
      or stops the pass when decoding fails. */
  function Scan(cands: seq<Option<string>>, decode: string -> Option<string>, found: Option<string>): CookieResult
    decreases |cands|
  {
    if cands == [] then
      (if found.Some? then Value(found.value) else NotFound)
    else if cands[0].Some? then
      match decode(cands[0].value)
      case None => Malformed
      case Some(v) => Scan(cands[1..], decode, Some(v))
    else
      Scan(cands[1..], decode, found)
  }

  /** `getCookie(name)` over the cookie string `cookie`: `null` for an empty
      string, otherwise the pass over its ';'-separated entries. */
  method GetCookie(cookie: string, name: string, decode: string -> Option<string>)
    returns (r: CookieResult)
    ensures cookie == [] ==> r == NotFound
    ensures cookie != [] ==> r == Scan(Candidates(SplitOn(cookie, ';'), name), decode, None)
  {
    var cookieValue: Option<string> := None;
    if cookie != [] {
      var entries := SplitOn(cookie, ';');
      ghost var cands := Candidates(entries, name);
      for k := 0 to |entries|
        invariant Scan(cands, decode, None) == Scan(cands[k..], decode, cookieValue)
      {
        var entry := Trim(entries[k]);
        CandidateAt(entries, name, k);
        ScanStep(cands, k, decode, cookieValue);
        if StartsWith(entry, name + "=") {
          var decoded := decode(entry[|name| + 1..]);
          if decoded.None? {
            return Malformed;
          }
          cookieValue := decoded;
        }
      }
    }
    r := if cookieValue.Some? then Value(cookieValue.value) else NotFound;
  }

  /** One step of the pass, taken at candidate `k`. */
  lemma ScanStep(cands: seq<Option<string>>, k: int, decode: string -> Option<string>, found: Option<string>)
    requires 0 <= k < |cands|
    ensures cands[k].None? ==> Scan(cands[k..], decode, found) == Scan(cands[k + 1..], decode, found)
    ensures cands[k].Some? && decode(cands[k].value).None? ==> Scan(cands[k..], decode, found) == Malformed
    ensures cands[k].Some? && decode(cands[k].value).Some? ==>
      Scan(cands[k..], decode, found) == Scan(cands[k + 1..], decode, decode(cands[k].value))
  {
    assert cands[k..][1..] == cands[k + 1..];
  }

  /** The pass fails exactly when some candidate does not decode. */
  lemma {:induction false} ScanMalformedIff(cands: seq<Option<string>>, decode: string -> Option<string>, found: Option<string>)
    ensures Scan(cands, decode, found).Malformed? <==>
      exists i :: 0 <= i < |cands| && cands[i].Some? && decode(cands[i].value).None?
    decreases |cands|
  {
    if cands != [] && !(cands[0].Some? && decode(cands[0].value).None?) {
      var rest := cands[1..];
      ScanMalformedIff(rest, decode, if cands[0].Some? then decode(cands[0].value) else found);
      if exists i :: 0 <= i < |cands| && cands[i].Some? && decode(cands[i].value).None? {
        var i :| 0 <= i < |cands| && cands[i].Some? && decode(cands[i].value).None?;
        assert rest[i - 1] == cands[i];
      }
    }
  }

  /** The pass finds nothing exactly when nothing was carried in and there
      is no candidate. */
  lemma {:induction false} ScanNotFoundIff(cands: seq<Option<string>>, decode: string -> Option<string>, found: Option<string>)
    ensures Scan(cands, decode, found).NotFound? <==>
      found.None? && forall i :: 0 <= i < |cands| ==> cands[i].None?
    decreases |cands|
  {
    if cands != [] {
      var rest := cands[1..];
      if cands[0].Some? {
        var d := decode(cands[0].value);
        if d.Some? {
          ScanNotFoundIff(rest, decode, d);
        }
      } else {
        ScanNotFoundIff(rest, decode, found);
        assert forall i :: 1 <= i < |cands| ==> cands[i] == rest[i - 1];
      }
    }
  }

  /** Candidate `i` exists and no later one does. */
  predicate IsLast(cands: seq<Option<string>>, i: int) {
    0 <= i < |cands| && cands[i].Some? && forall j :: i < j < |cands| ==> cands[j].None?
  }

  /** A value found by the pass is the decoded last candidate (or the value
      carried in, when there is no candidate). */
  lemma {:induction false} ScanValueIsLast(cands: seq<Option<string>>, decode: string -> Option<string>, found: Option<string>)
    requires Scan(cands, decode, found).Value?
    ensures var v := Scan(cands, decode, found).value;
      || (exists i :: IsLast(cands, i) && decode(cands[i].value) == Some(v))
      || (found == Some(v) && forall i :: 0 <= i < |cands| ==> cands[i].None?)
    decreases |cands|
  {
    if cands != [] {
      var rest := cands[1..];
      var v := Scan(cands, decode, found).value;
      var found' := if cands[0].Some? then decode(cands[0].value) else found;
      ScanValueIsLast(rest, decode, found');
      if exists i :: IsLast(rest, i) && decode(rest[i].value) == Some(v) {
        var i :| IsLast(rest, i) && decode(rest[i].value) == Some(v);
        assert IsLast(cands, i + 1);
      } else if cands[0].Some? {
        assert IsLast(cands, 0);
      }
    }
  }

  /** What `getCookie` promises, over the entries of a non-empty cookie
      string: no matching entry gives `null`; a matching entry that does not
      decode throws; otherwise the result is the decoded text after `name=`
      of the last matching entry. */
  lemma NotFoundIffNoMatch(entries: seq<string>, name: string, decode: string -> Option<string>)
    ensures Scan(Candidates(entries, name), decode, None).NotFound? <==>
      forall i :: 0 <= i < |entries| ==> !EntryMatches(entries[i], name)
  {
    var cands := Candidates(entries, name);
    ScanNotFoundIff(cands, decode, None);
    assert forall i :: 0 <= i < |entries| ==> (cands[i].None? <==> !EntryMatches(entries[i], name));
  }

  /** A matching entry that does not decode makes the lookup throw. */
  lemma MalformedIffUndecodableMatch(entries: seq<string>, name: string, decode: string -> Option<string>)
    ensures Scan(Candidates(entries, name), decode, None).Malformed? <==>
      exists i :: 0 <= i < |entries| && EntryMatches(entries[i], name) && decode(EntryValue(entries[i], name)).None?
  {
    var cands := Candidates(entries, name);
    ScanMalformedIff(cands, decode, None);
    if Scan(cands, decode, None).Malformed? {
      var i :| 0 <= i < |cands| && cands[i].Some? && decode(cands[i].value).None?;
      assert EntryMatches(entries[i], name) && decode(EntryValue(entries[i], name)).None?;
    }
    if exists i :: 0 <= i < |entries| && EntryMatches(entries[i], name) && decode(EntryValue(entries[i], name)).None? {
      var i :| 0 <= i < |entries| && EntryMatches(entries[i], name) && decode(EntryValue(entries[i], name)).None?;
      assert cands[i].Some? && decode(cands[i].value).None?;
    }
  }

  /** A value returned is the decoded value of the last matching entry. */
  lemma ValueIsLastMatch(entries: seq<string>, name: string, decode: string -> Option<string>)
    requires Scan(Candidates(entries, name), decode, None).Value?
    ensures exists i ::
      && IsLastMatch(entries, name, i)
      && decode(EntryValue(entries[i], name)) == Some(Scan(Candidates(entries, name), decode, None).value)
  {
    var cands := Candidates(entries, name);
    ScanValueIsLast(cands, decode, None);
    var i :| IsLast(cands, i) && decode(cands[i].value) == Some(Scan(cands, decode, None).value);
    forall j | i < j < |entries| ensures !EntryMatches(entries[j], name) {
      CandidateAt(entries, name, j);
    }
    CandidateAt(entries, name, i);
  }

  /** Candidate `j` is present exactly for a matching entry, and then holds
      that entry's value. */
  lemma CandidateAt(entries: seq<string>, name: string, j: int)
    requires 0 <= j < |entries|
    ensures Candidates(entries, name)[j].Some? <==> EntryMatches(entries[j], name)
    ensures Candidates(entries, name)[j].Some? ==> Candidates(entries, name)[j].value == EntryValue(entries[j], name)
  {
  }

  /** An entry for a longer name that begins with a shorter one
      (`csrftoken2=…` against `csrftoken`) does not match the shorter name,
      because the character after the shorter name is not '='. */
  lemma LongerNameExcludesShorter(entry: string, shortName: string, longName: string)
    requires '=' !in longName && |shortName| < |longName|
    requires EntryMatches(entry, longName)
    ensures !EntryMatches(entry, shortName)
  {
    var t := Trim(entry);
    assert t[|shortName|] == (longName + "=")[|shortName|] == longName[|shortName|];
  }

  /** Blanks around an entry do not matter: an entry matches exactly when
      its trimmed form does, and carries the same value. */
  lemma PaddingIgnored(entry: string, name: string)
    ensures EntryMatches(entry, name) <==> EntryMatches(Trim(entry), name)
    ensures EntryMatches(entry, name) ==> EntryValue(entry, name) == EntryValue(Trim(entry), name)
  {
    TrimIdempotent(entry);
  }
}
