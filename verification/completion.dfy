/**
 * Tab completion of HTTP header names (main.py, `COMMON_HTTP_HEADERS` and
 * `completer`).
 *
 * The line editor calls the completer with the text typed so far and a
 * state 0, 1, 2, ... and stops at the first `None`. The completer keeps the
 * headers whose lower-cased name starts with the lower-cased text, in the
 * order of the table, and answers with the `state`-th of them.
 */
module HeaderCompletion {

  /**
   * The fixed table of header names offered for completion, in its own
   * order, written row by row as the source lays it out.
   */
  const CommonHttpHeaders: seq<string> :=
    ["Accept", "Accept-Charset", "Accept-Encoding", "Accept-Language"] +
    ["Authorization", "Cache-Control", "Connection", "Content-Length"] +
    ["Content-Type", "Cookie", "Date", "DNT", "Expect", "From", "Host"] +
    ["If-Match", "If-Modified-Since", "If-None-Match", "If-Range"] +
    ["If-Unmodified-Since", "Max-Forwards", "Origin", "Pragma"] +
    ["Proxy-Authorization", "Range", "Referer", "TE", "Upgrade"] +
    ["User-Agent", "Via", "Warning", "X-Requested-With", "X-Forwarded-For"] +
    ["X-Forwarded-Host", "X-Forwarded-Proto", "X-Real-IP", "X-CSRF-Token"] +
    ["X-API-Key"]

  /**
   * The completer's answer. `NoMore` is Python's `None`; `IndexError` is the
   * exception that `options[state]` raises for a state below `-len(options)`
   * (a negative state passes the `state < len(options)` guard and indexes
   * from the end, as Python lists do).
   */
  datatype Suggestion = Header(name: string) | NoMore | IndexError

  /** ASCII lower-casing of one character; every other character is kept. */
  function LowerChar(c: char): char
  {
    if 'A' <= c <= 'Z' then (c as int + 32) as char else c
  }

  /** `str.lower()`, restricted to ASCII case folding. */
  function Lower(s: string): (r: string)
    ensures |r| == |s|
    ensures forall i :: 0 <= i < |s| ==> r[i] == LowerChar(s[i])
  {
    if s == [] then [] else [LowerChar(s[0])] + Lower(s[1..])
  }

  /** Lower-casing twice is lower-casing once. */
  lemma {:induction false} LowerIdempotent(s: string)
    ensures Lower(Lower(s)) == Lower(s)
  {
    if s != [] {
      LowerIdempotent(s[1..]);
      assert Lower(s) == [LowerChar(s[0])] + Lower(s[1..]);
      assert Lower(s)[1..] == Lower(s[1..]);
    }
  }

  /**
   * `h.lower().startswith(text.lower())`, compared one character at a time
   * (MatchesIffLowerPrefix shows it is the prefix test on lower-cased strings).
   */
  predicate Matches(h: string, text: string)
  {
    text == [] || (h != [] && LowerChar(h[0]) == LowerChar(text[0]) && Matches(h[1..], text[1..]))
  }

  /** The character-wise test is exactly "the lower-cased text is a prefix of the lower-cased header". */
  lemma {:induction false} MatchesIffLowerPrefix(h: string, text: string)
    ensures Matches(h, text) <==> Lower(text) <= Lower(h)
  {
    if text != [] && h != [] {
      MatchesIffLowerPrefix(h[1..], text[1..]);
      assert Lower(text) == [LowerChar(text[0])] + Lower(text[1..]);
      assert Lower(h) == [LowerChar(h[0])] + Lower(h[1..]);
    }
  }

  /**
   * The list comprehension `[h for h in headers if ...]`: the headers that
   * match `text`, in their order in `headers`.
   */
  function Options(headers: seq<string>, text: string): seq<string>
  {
    if headers == [] then []
    else (if Matches(headers[0], text) then [headers[0]] else []) + Options(headers[1..], text)
  }

  /** The options are exactly the headers that match, and there are no more of them than headers. */
  lemma {:induction false} OptionsMembers(headers: seq<string>, text: string)
    ensures |Options(headers, text)| <= |headers|
    ensures forall h :: h in Options(headers, text) <==> h in headers && Matches(h, text)
  {
    if headers != [] {
      OptionsMembers(headers[1..], text);
      assert headers == [headers[0]] + headers[1..];
    }
  }

  /** The matches for `text` in the fixed table. */
  function MatchingHeaders(text: string): seq<string>
  {
    Options(CommonHttpHeaders, text)
  }

  /**
   * `completer(text, state)`: the `state`-th match, `None` once `state` runs
   * past the matches, Python's negative indexing for a negative `state`.
   */
  function Completer(text: string, state: int): (r: Suggestion)
    ensures r.NoMore? <==> state >= |MatchingHeaders(text)|
    ensures r.IndexError? <==> state < -|MatchingHeaders(text)|
    ensures r.Header? ==> r.name in MatchingHeaders(text)
    ensures 0 <= state < |MatchingHeaders(text)| ==> r == Header(MatchingHeaders(text)[state])
    ensures -|MatchingHeaders(text)| <= state < 0 ==>
      r == Header(MatchingHeaders(text)[|MatchingHeaders(text)| + state])
  {
    var options := MatchingHeaders(text);
    if state < |options| then
      if 0 <= state then Header(options[state])
      else if -|options| <= state then Header(options[|options| + state])
      else IndexError
    else NoMore
  }

  /**
   * Every header the completer offers is in the table and its lower-cased
   * name starts with the lower-cased text.
   */
  lemma CompleterSound(text: string, state: int)
    ensures var r := Completer(text, state);
      r.Header? ==> r.name in CommonHttpHeaders && Lower(text) <= Lower(r.name)
  {
    var r := Completer(text, state);
    OptionsMembers(CommonHttpHeaders, text);
    if r.Header? {
      MatchesIffLowerPrefix(r.name, text);
    }
  }

  /**
   * The filter keeps the order of its input: two matches at positions
   * `i < j` of the options come from positions `p < q` of the headers.
   */
  lemma {:induction false} OptionsKeepOrder(headers: seq<string>, text: string, i: nat, j: nat)
    requires i < j < |Options(headers, text)|
    ensures exists p, q ::
      0 <= p < q < |headers| &&
      headers[p] == Options(headers, text)[i] && headers[q] == Options(headers, text)[j]
  {
    var rest := Options(headers[1..], text);
    if Matches(headers[0], text) {
      assert Options(headers, text) == [headers[0]] + rest;
      if i == 0 {
        var h := rest[j - 1];
        OptionsMembers(headers[1..], text);
        assert h in rest;
        var q' :| 0 <= q' < |headers[1..]| && headers[1..][q'] == h;
        assert headers[0] == Options(headers, text)[i] && headers[q' + 1] == Options(headers, text)[j];
      } else {
        OptionsKeepOrder(headers[1..], text, i - 1, j - 1);
        var p', q' :| 0 <= p' < q' < |headers[1..]| &&
          headers[1..][p'] == rest[i - 1] && headers[1..][q'] == rest[j - 1];
        assert headers[p' + 1] == Options(headers, text)[i] && headers[q' + 1] == Options(headers, text)[j];
      }
    } else {
      assert Options(headers, text) == rest;
      OptionsKeepOrder(headers[1..], text, i, j);
      var p', q' :| 0 <= p' < q' < |headers[1..]| &&
        headers[1..][p'] == rest[i] && headers[1..][q'] == rest[j];
      assert headers[p' + 1] == Options(headers, text)[i] && headers[q' + 1] == Options(headers, text)[j];
    }
  }

  /** Filtering a concatenation filters each part and concatenates the results. */
  lemma {:induction false} OptionsOfConcat(a: seq<string>, b: seq<string>, text: string)
    ensures Options(a + b, text) == Options(a, text) + Options(b, text)
  {
    if a == [] {
      assert a + b == b;
    } else {
      var first := if Matches(a[0], text) then [a[0]] else [];
      assert (a + b)[0] == a[0];
      assert (a + b)[1..] == a[1..] + b;
      calc {
        Options(a + b, text);
        first + Options(a[1..] + b, text);
        { OptionsOfConcat(a[1..], b, text); }
        first + (Options(a[1..], text) + Options(b, text));
        (first + Options(a[1..], text)) + Options(b, text);
      }
    }
  }

  /** When every header matches, the filter keeps them all. */
  lemma {:induction false} OptionsAllMatch(headers: seq<string>, text: string)
    requires forall h :: h in headers ==> Matches(h, text)
    ensures Options(headers, text) == headers
  {
    if headers != [] {
      OptionsAllMatch(headers[1..], text);
    }
  }

  /** Two texts that match the same headers give the same options. */
  lemma {:induction false} OptionsSameMatches(headers: seq<string>, t1: string, t2: string)
    requires forall h :: Matches(h, t1) == Matches(h, t2)
    ensures Options(headers, t1) == Options(headers, t2)
  {
    if headers != [] {
      OptionsSameMatches(headers[1..], t1, t2);
    }
  }

  /** Matching ignores case: the text and its lower-cased form complete alike. */
  lemma CompleterIgnoresCase(text: string, state: int)
    ensures Completer(text, state) == Completer(Lower(text), state)
  {
    LowerIdempotent(text);
    forall h
      ensures Matches(h, text) == Matches(h, Lower(text))
    {
      MatchesIffLowerPrefix(h, text);
      MatchesIffLowerPrefix(h, Lower(text));
    }
    OptionsSameMatches(CommonHttpHeaders, text, Lower(text));
  }

  /** Every matching header is offered at some non-negative state. */
  lemma CompleterOffersEveryMatch(text: string, h: string)
    requires h in CommonHttpHeaders && Matches(h, text)
    ensures exists state :: 0 <= state < |CommonHttpHeaders| && Completer(text, state) == Header(h)
  {
    var options := MatchingHeaders(text);
    OptionsMembers(CommonHttpHeaders, text);
    var k :| 0 <= k < |options| && options[k] == h;
    assert Completer(text, k) == Header(h);
  }

  /** The matches of a text are the matches in each row of the table, row after row. */
  lemma MatchingHeadersByRows(text: string)
    ensures MatchingHeaders(text) ==
      Options(["Accept", "Accept-Charset", "Accept-Encoding", "Accept-Language"], text) +
      Options(["Authorization", "Cache-Control", "Connection", "Content-Length"], text) +
      Options(["Content-Type", "Cookie", "Date", "DNT", "Expect", "From", "Host"], text) +
      Options(["If-Match", "If-Modified-Since", "If-None-Match", "If-Range"], text) +
      Options(["If-Unmodified-Since", "Max-Forwards", "Origin", "Pragma"], text) +
      Options(["Proxy-Authorization", "Range", "Referer", "TE", "Upgrade"], text) +
      Options(["User-Agent", "Via", "Warning", "X-Requested-With", "X-Forwarded-For"], text) +
      Options(["X-Forwarded-Host", "X-Forwarded-Proto", "X-Real-IP", "X-CSRF-Token"], text) +
      Options(["X-API-Key"], text)
  {
    var r0: seq<string> := ["Accept", "Accept-Charset", "Accept-Encoding", "Accept-Language"];
    var r1: seq<string> := ["Authorization", "Cache-Control", "Connection", "Content-Length"];
    var r2: seq<string> := ["Content-Type", "Cookie", "Date", "DNT", "Expect", "From", "Host"];
    var r3: seq<string> := ["If-Match", "If-Modified-Since", "If-None-Match", "If-Range"];
    var r4: seq<string> := ["If-Unmodified-Since", "Max-Forwards", "Origin", "Pragma"];
    var r5: seq<string> := ["Proxy-Authorization", "Range", "Referer", "TE", "Upgrade"];
    var r6: seq<string> := ["User-Agent", "Via", "Warning", "X-Requested-With", "X-Forwarded-For"];
    var r7: seq<string> := ["X-Forwarded-Host", "X-Forwarded-Proto", "X-Real-IP", "X-CSRF-Token"];
    var r8: seq<string> := ["X-API-Key"];
    OptionsOfConcat(r0 + r1 + r2 + r3 + r4 + r5 + r6 + r7, r8, text);
    OptionsOfConcat(r0 + r1 + r2 + r3 + r4 + r5 + r6, r7, text);
    OptionsOfConcat(r0 + r1 + r2 + r3 + r4 + r5, r6, text);
    OptionsOfConcat(r0 + r1 + r2 + r3 + r4, r5, text);
    OptionsOfConcat(r0 + r1 + r2 + r3, r4, text);
    OptionsOfConcat(r0 + r1 + r2, r3, text);
    OptionsOfConcat(r0 + r1, r2, text);
    OptionsOfConcat(r0, r1, text);
  }

  /** Assembles the matches of the whole table from the matches of its rows. */
  lemma MatchingHeadersFromRows(text: string, o1: seq<string>, o2: seq<string>, o3: seq<string>,
    o4: seq<string>, o5: seq<string>, o6: seq<string>, o7: seq<string>, o8: seq<string>, o9: seq<string>)
    requires Options(["Accept", "Accept-Charset", "Accept-Encoding", "Accept-Language"], text) == o1
    requires Options(["Authorization", "Cache-Control", "Connection", "Content-Length"], text) == o2
    requires Options(["Content-Type", "Cookie", "Date", "DNT", "Expect", "From", "Host"], text) == o3
    requires Options(["If-Match", "If-Modified-Since", "If-None-Match", "If-Range"], text) == o4
    requires Options(["If-Unmodified-Since", "Max-Forwards", "Origin", "Pragma"], text) == o5
    requires Options(["Proxy-Authorization", "Range", "Referer", "TE", "Upgrade"], text) == o6
    requires Options(["User-Agent", "Via", "Warning", "X-Requested-With", "X-Forwarded-For"], text) == o7
    requires Options(["X-Forwarded-Host", "X-Forwarded-Proto", "X-Real-IP", "X-CSRF-Token"], text) == o8
    requires Options(["X-API-Key"], text) == o9
    ensures MatchingHeaders(text) == o1 + o2 + o3 + o4 + o5 + o6 + o7 + o8 + o9
  {
    MatchingHeadersByRows(text);
  }

  // The matches of "auth" in each row of the table, one row at a time.

  lemma AuthInRow1()
    ensures Options(["Accept", "Accept-Charset", "Accept-Encoding", "Accept-Language"], "auth") == []
  {
    assert !Matches("Accept", "auth");
    assert !Matches("Accept-Charset", "auth");
    assert !Matches("Accept-Encoding", "auth");
    assert !Matches("Accept-Language", "auth");
  }

  lemma AuthInRow2()
    ensures Options(["Authorization", "Cache-Control", "Connection", "Content-Length"], "auth") == ["Authorization"]
  {
    assert Matches("Authorization", "auth");
    assert !Matches("Cache-Control", "auth");
    assert !Matches("Connection", "auth");
    assert !Matches("Content-Length", "auth");
  }

  lemma AuthInRow3()
    ensures Options(["Content-Type", "Cookie", "Date", "DNT", "Expect", "From", "Host"], "auth") == []
  {
    assert !Matches("Content-Type", "auth");
    assert !Matches("Cookie", "auth");
    assert !Matches("Date", "auth");
    assert !Matches("DNT", "auth");
    assert !Matches("Expect", "auth");
    assert !Matches("From", "auth");
    assert !Matches("Host", "auth");
  }

  lemma AuthInRow4()
    ensures Options(["If-Match", "If-Modified-Since", "If-None-Match", "If-Range"], "auth") == []
  {
    assert !Matches("If-Match", "auth");
    assert !Matches("If-Modified-Since", "auth");
    assert !Matches("If-None-Match", "auth");
    assert !Matches("If-Range", "auth");
  }

  lemma AuthInRow5()
    ensures Options(["If-Unmodified-Since", "Max-Forwards", "Origin", "Pragma"], "auth") == []
  {
    assert !Matches("If-Unmodified-Since", "auth");
    assert !Matches("Max-Forwards", "auth");
    assert !Matches("Origin", "auth");
    assert !Matches("Pragma", "auth");
  }

  lemma AuthInRow6()
    ensures Options(["Proxy-Authorization", "Range", "Referer", "TE", "Upgrade"], "auth") == []
  {
    assert !Matches("Proxy-Authorization", "auth");
    assert !Matches("Range", "auth");
    assert !Matches("Referer", "auth");
    assert !Matches("TE", "auth");
    assert !Matches("Upgrade", "auth");
  }

  lemma AuthInRow7()
    ensures Options(["User-Agent", "Via", "Warning", "X-Requested-With", "X-Forwarded-For"], "auth") == []
  {
    assert !Matches("User-Agent", "auth");
    assert !Matches("Via", "auth");
    assert !Matches("Warning", "auth");
    assert !Matches("X-Requested-With", "auth");
    assert !Matches("X-Forwarded-For", "auth");
  }

  lemma AuthInRow8()
    ensures Options(["X-Forwarded-Host", "X-Forwarded-Proto", "X-Real-IP", "X-CSRF-Token"], "auth") == []
  {
    assert !Matches("X-Forwarded-Host", "auth");
    assert !Matches("X-Forwarded-Proto", "auth");
    assert !Matches("X-Real-IP", "auth");
    assert !Matches("X-CSRF-Token", "auth");
  }

  lemma AuthInRow9()
    ensures Options(["X-API-Key"], "auth") == []
  {
    assert !Matches("X-API-Key", "auth");
  }

  // The matches of "X-" in each row of the table, one row at a time.

  lemma XDashInRow1()
    ensures Options(["Accept", "Accept-Charset", "Accept-Encoding", "Accept-Language"], "X-") == []
  {
    assert !Matches("Accept", "X-");
    assert !Matches("Accept-Charset", "X-");
    assert !Matches("Accept-Encoding", "X-");
    assert !Matches("Accept-Language", "X-");
  }

  lemma XDashInRow2()
    ensures Options(["Authorization", "Cache-Control", "Connection", "Content-Length"], "X-") == []
  {
    assert !Matches("Authorization", "X-");
    assert !Matches("Cache-Control", "X-");
    assert !Matches("Connection", "X-");
    assert !Matches("Content-Length", "X-");
  }

  lemma XDashInRow3()
    ensures Options(["Content-Type", "Cookie", "Date", "DNT", "Expect", "From", "Host"], "X-") == []
  {
    assert !Matches("Content-Type", "X-");
    assert !Matches("Cookie", "X-");
    assert !Matches("Date", "X-");
    assert !Matches("DNT", "X-");
    assert !Matches("Expect", "X-");
    assert !Matches("From", "X-");
    assert !Matches("Host", "X-");
  }

  lemma XDashInRow4()
    ensures Options(["If-Match", "If-Modified-Since", "If-None-Match", "If-Range"], "X-") == []
  {
    assert !Matches("If-Match", "X-");
    assert !Matches("If-Modified-Since", "X-");
    assert !Matches("If-None-Match", "X-");
    assert !Matches("If-Range", "X-");
  }

  lemma XDashInRow5()
    ensures Options(["If-Unmodified-Since", "Max-Forwards", "Origin", "Pragma"], "X-") == []
  {
    assert !Matches("If-Unmodified-Since", "X-");
    assert !Matches("Max-Forwards", "X-");
    assert !Matches("Origin", "X-");
    assert !Matches("Pragma", "X-");
  }

  lemma XDashInRow6()
    ensures Options(["Proxy-Authorization", "Range", "Referer", "TE", "Upgrade"], "X-") == []
  {
    assert !Matches("Proxy-Authorization", "X-");
    assert !Matches("Range", "X-");
    assert !Matches("Referer", "X-");
    assert !Matches("TE", "X-");
    assert !Matches("Upgrade", "X-");
  }

  lemma XDashInRow7()
    ensures Options(["User-Agent", "Via", "Warning", "X-Requested-With", "X-Forwarded-For"], "X-") == ["X-Requested-With", "X-Forwarded-For"]
  {
    assert !Matches("User-Agent", "X-");
    assert !Matches("Via", "X-");
    assert !Matches("Warning", "X-");
    assert Matches("X-Requested-With", "X-");
    assert Matches("X-Forwarded-For", "X-");
  }

  lemma XDashInRow8()
    ensures Options(["X-Forwarded-Host", "X-Forwarded-Proto", "X-Real-IP", "X-CSRF-Token"], "X-") == ["X-Forwarded-Host", "X-Forwarded-Proto", "X-Real-IP", "X-CSRF-Token"]
  {
    assert Matches("X-Forwarded-Host", "X-");
    assert Matches("X-Forwarded-Proto", "X-");
    assert Matches("X-Real-IP", "X-");
    assert Matches("X-CSRF-Token", "X-");
  }

  lemma XDashInRow9()
    ensures Options(["X-API-Key"], "X-") == ["X-API-Key"]
  {
    assert Matches("X-API-Key", "X-");
  }

  /** With nothing typed, state `i` is the `i`-th header, and 38 is past the end. */
  lemma CompleterEmptyText(i: nat)
    ensures |CommonHttpHeaders| == 38
    ensures i < 38 ==> Completer("", i) == Header(CommonHttpHeaders[i])
    ensures i >= 38 ==> Completer("", i) == NoMore
  {
    OptionsAllMatch(CommonHttpHeaders, "");
  }

  /** "auth" matches "Authorization" and no other header. */
  lemma MatchingHeadersAuth()
    ensures MatchingHeaders("auth") == ["Authorization"]
  {
    AuthInRow1();
    AuthInRow2();
    AuthInRow3();
    AuthInRow4();
    AuthInRow5();
    AuthInRow6();
    AuthInRow7();
    AuthInRow8();
    AuthInRow9();
    MatchingHeadersFromRows("auth", [], ["Authorization"], [], [], [], [], [], [], []);
  }

  /** Typing "auth" offers "Authorization" and then nothing more. */
  lemma CompleterAuth()
    ensures Completer("auth", 0) == Header("Authorization")
    ensures Completer("auth", 1) == NoMore
    ensures Completer("auth", -1) == Header("Authorization")
  {
    MatchingHeadersAuth();
  }

  /** The matches of "X-", row by row: the last three rows hold all of them. */
  lemma MatchingHeadersXDashByRows()
    ensures MatchingHeaders("X-") ==
      [] + [] + [] + [] + [] + [] + ["X-Requested-With", "X-Forwarded-For"] + ["X-Forwarded-Host", "X-Forwarded-Proto", "X-Real-IP", "X-CSRF-Token"] + ["X-API-Key"]
  {
    XDashInRow1();
    XDashInRow2();
    XDashInRow3();
    XDashInRow4();
    XDashInRow5();
    XDashInRow6();
    XDashInRow7();
    XDashInRow8();
    XDashInRow9();
    MatchingHeadersFromRows("X-", [], [], [], [], [], [], ["X-Requested-With", "X-Forwarded-For"], ["X-Forwarded-Host", "X-Forwarded-Proto", "X-Real-IP", "X-CSRF-Token"], ["X-API-Key"]);
  }

  /** "X-" matches the seven X- headers, in table order. */
  lemma MatchingHeadersXDash()
    ensures MatchingHeaders("X-") == ["X-Requested-With", "X-Forwarded-For", "X-Forwarded-Host",
      "X-Forwarded-Proto", "X-Real-IP", "X-CSRF-Token", "X-API-Key"]
  {
    MatchingHeadersXDashByRows();
  }

  /**
   * "X-" offers "X-Requested-With" first and "X-API-Key" last; counted from
   * the end, state -1 is "X-API-Key", -2 "X-CSRF-Token" and -7
   * "X-Requested-With"; state 7 ends the completion and -8 is out of range.
   * Lower-case "x-" completes the same way.
   */
  lemma CompleterXDash()
    ensures Completer("X-", 0) == Header("X-Requested-With")
    ensures Completer("X-", 6) == Header("X-API-Key")
    ensures Completer("X-", -1) == Header("X-API-Key")
    ensures Completer("X-", -2) == Header("X-CSRF-Token")
    ensures Completer("X-", -7) == Header("X-Requested-With")
    ensures Completer("X-", 7) == NoMore
    ensures Completer("X-", -8) == IndexError
    ensures Completer("x-", 0) == Header("X-Requested-With")
    ensures forall s :: Completer("x-", s) == Completer("X-", s)
  {
    MatchingHeadersXDash();
    assert Lower("X-") == "x-";
    forall s
      ensures Completer("x-", s) == Completer("X-", s)
    {
      CompleterIgnoresCase("X-", s);
    }
  }
}
