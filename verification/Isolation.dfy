/** Delimiting untrusted text in a prompt (`silk_ai_judge.py`, `_isolate`). */
module Isolation {
  import opened Common

  const RAW_START := "[RAW_FINDINGS_START]"
  const RAW_END := "[RAW_FINDINGS_END]"
  const SAFE_START := "[raw-findings-start]"
  const SAFE_END := "[raw-findings-end]"

  /** Python's `str.replace`: left to right, without overlaps. */
  function Replace(s: string, p: string, r: string): string
    requires p != ""
    decreases |s|
  {
    if |s| < |p| then s
    else if s[..|p|] == p then r + Replace(s[|p|..], p, r)
    else [s[0]] + Replace(s[1..], p, r)
  }

  function Clean(text: string): string {
    Replace(Replace(text, RAW_START, SAFE_START), RAW_END, SAFE_END)
  }

  function Isolate(text: string): string {
    RAW_START + "\n" + Clean(text) + "\n" + RAW_END
  }

  // ------------------------------------------------------------ occurrences

  ghost predicate Free(s: string, q: string) {
    forall k: nat :: !At(s, q, k)
  }

  /** A bracket opens the text and no other bracket opens inside it. */
  predicate Bracketed(q: string) {
    |q| >= 2 && q[0] == '[' && forall i | 1 <= i < |q| :: q[i] != '[' && q[i] != '\n'
  }

  lemma {:induction false} Markers()
    ensures Bracketed(RAW_START) && Bracketed(RAW_END) && Bracketed(SAFE_START) && Bracketed(SAFE_END)
    ensures SAFE_START[1] != RAW_START[1] && SAFE_START[1] != RAW_END[1]
    ensures SAFE_END[1] != RAW_START[1] && SAFE_END[1] != RAW_END[1]
    ensures |RAW_START| == |SAFE_START| == 20 && |RAW_END| == |SAFE_END| == 18
    ensures RAW_START[..18] != RAW_END
  {
    assert RAW_START[..18][14] == 'S' && RAW_END[14] == 'E';
  }

  lemma {:induction false} AtSuffix(a: string, b: string, q: string, k: nat)
    ensures k >= |a| ==> (At(a + b, q, k) <==> At(b, q, k - |a|))
    ensures k + |q| <= |a| ==> (At(a + b, q, k) <==> At(a, q, k))
  {
    if k >= |a| && k + |q| <= |a + b| { assert (a + b)[k..k + |q|] == b[k - |a|..k - |a| + |q|]; }
    if k + |q| <= |a| { assert (a + b)[k..k + |q|] == a[k..k + |q|]; }
  }

  lemma {:induction false} CharAt(s: string, q: string, k: nat, i: nat)
    requires At(s, q, k) && i < |q|
    ensures s[k + i] == q[i]
  {
    assert s[k..k + |q|][i] == s[k + i];
  }

  /** A marker never straddles a place where a bracket or a line begins. */
  lemma {:induction false} NoStraddle(a: string, b: string, q: string, k: nat)
    requires Bracketed(q) && (b != "" ==> b[0] == '[' || b[0] == '\n')
    requires At(a + b, q, k)
    ensures k + |q| <= |a| || k >= |a|
  {
    assert b != "" ==> (a + b)[|a|] == b[0];
    if k < |a| < k + |q| {
      CharAt(a + b, q, k, |a| - k);
    }
  }

  /** A marker never begins inside a bracketed text. */
  lemma {:induction false} NotInside(r: string, rest: string, q: string, k: nat)
    requires Bracketed(r) && Bracketed(q) && At(r + rest, q, k)
    ensures k == 0 || k >= |r|
  {
    CharAt(r + rest, q, k, 0);
    assert k < |r| ==> (r + rest)[k] == r[k];
  }

  lemma {:induction false} ReplacedHead(s: string, p: string, r: string)
    requires p != "" && Bracketed(r)
    ensures p <= s ==> Replace(s, p, r)[0] == r[0] && Replace(s, p, r)[1] == r[1]
    ensures s != "" && |p| <= |s| && !(p <= s) ==>
      Replace(s, p, r)[0] == s[0] && Replace(s, p, r)[1..] == Replace(s[1..], p, r)
  {}

  /** A bracket-free start of the output was there before the replacement. */
  lemma {:induction false} PrefixSurvives(s: string, p: string, r: string, u: string)
    requires p != "" && Bracketed(r)
    requires forall i | 0 <= i < |u| :: u[i] != '['
    requires u <= Replace(s, p, r)
    ensures u <= s
    decreases |s|
  {
    ReplacedHead(s, p, r);
    if u != "" && |s| >= |p| && !(p <= s) {
      PrefixSurvives(s[1..], p, r, u[1..]);
      assert u == [u[0]] + u[1..] && s == [s[0]] + s[1..];
    }
  }

  /** An occurrence at the head of the output was at the head of the input, and
      is not the text being replaced. */
  lemma {:induction false} HeadOccurrence(s: string, p: string, r: string, q: string)
    requires p != "" && Bracketed(q) && Bracketed(r) && r[1] != q[1]
    requires At(Replace(s, p, r), q, 0)
    ensures At(s, q, 0) && q != p
  {
    var out := Replace(s, p, r);
    CharAt(out, q, 0, 0);
    CharAt(out, q, 0, 1);
    ReplacedHead(s, p, r);
    if |s| >= |p| && s[..|p|] != p {
      var rest := Replace(s[1..], p, r);
      assert out[..|q|] == q && q[1..] == out[1..|q|] == rest[..|q| - 1];
      PrefixSurvives(s[1..], p, r, q[1..]);
      assert q == [q[0]] + q[1..] && s == [s[0]] + s[1..];
    }
  }

  /** Replacement makes no new occurrence: neither of the text replaced, nor of
      another marker that was absent before. */
  lemma {:induction false} NoNewOccurrence(s: string, p: string, r: string, q: string, k: nat)
    requires p != "" && Bracketed(q) && Bracketed(r) && r[1] != q[1]
    requires q == p || Free(s, q)
    ensures !At(Replace(s, p, r), q, k)
    decreases |s|
  {
    if At(Replace(s, p, r), q, k) {
      if k == 0 {
        HeadOccurrence(s, p, r, q);
      } else if |s| >= |p| && s[..|p|] == p {
        var rest := Replace(s[|p|..], p, r);
        NotInside(r, rest, q, k);
        AtSuffix(r, rest, q, k);
        FreeSuffix(s, q, |p|);
        NoNewOccurrence(s[|p|..], p, r, q, k - |r|);
      } else if |s| >= |p| {
        AtSuffix([s[0]], Replace(s[1..], p, r), q, k);
        FreeSuffix(s, q, 1);
        NoNewOccurrence(s[1..], p, r, q, k - 1);
      }
    }
  }

  lemma {:induction false} FreeSuffix(s: string, q: string, n: nat)
    requires n <= |s|
    ensures Free(s, q) ==> Free(s[n..], q)
  {
    if Free(s, q) {
      forall k: nat ensures !At(s[n..], q, k) {
        AtSuffix(s[..n], s[n..], q, n + k);
        assert s[..n] + s[n..] == s;
      }
    }
  }

  lemma {:induction false} CleanIsFree(text: string)
    ensures Free(Clean(text), RAW_START) && Free(Clean(text), RAW_END)
  {
    Markers();
    var once := Replace(text, RAW_START, SAFE_START);
    forall k: nat ensures !At(once, RAW_START, k) { NoNewOccurrence(text, RAW_START, SAFE_START, RAW_START, k); }
    forall k: nat ensures !At(Clean(text), RAW_START, k) { NoNewOccurrence(once, RAW_END, SAFE_END, RAW_START, k); }
    forall k: nat ensures !At(Clean(text), RAW_END, k) { NoNewOccurrence(once, RAW_END, SAFE_END, RAW_END, k); }
  }

  /** A newline on each side of marker-free text makes no marker. */
  lemma {:induction false} LineOf(d: string, q: string)
    requires Bracketed(q) && Free(d, q)
    ensures Free("\n" + d + "\n", q)
  {
    var line := "\n" + d + "\n";
    forall k: nat ensures !At(line, q, k) {
      if At(line, q, k) {
        CharAt(line, q, k, 0);
        NoStraddle("\n" + d, "\n", q, k);
        assert k <= |d|;
        AtSuffix("\n" + d, "\n", q, k);
        AtSuffix("\n", d, q, k);
      }
    }
  }

  lemma {:induction false} OnlyAtEnds(line: string, q: string, k: nat)
    requires q == RAW_START || q == RAW_END
    requires Free(line, q) && line != "" && line[0] == '\n'
    requires At(RAW_START + line + RAW_END, q, k)
    ensures k == 0 || k == |RAW_START| + |line|
  {
    Markers();
    var front := RAW_START + line;
    assert RAW_START + line + RAW_END == front + RAW_END == RAW_START + (line + RAW_END);
    NoStraddle(front, RAW_END, q, k);
    AtSuffix(front, RAW_END, q, k);
    NotInside(RAW_START, line + RAW_END, q, k);
    if k >= |front| {
      NotInside(RAW_END, "", q, k - |front|);
      assert RAW_END + "" == RAW_END;
    } else if k > 0 {
      AtSuffix(RAW_START, line, q, k);
    }
  }

  /** Whatever the text, the start marker stands once, at the very beginning,
      and the end marker once, at the very end. */
  lemma {:induction false} MarkersOnce(text: string, k: nat)
    ensures At(Isolate(text), RAW_START, k) <==> k == 0
    ensures At(Isolate(text), RAW_END, k) <==> k == |Isolate(text)| - |RAW_END|
  {
    Markers();
    CleanIsFree(text);
    var line := "\n" + Clean(text) + "\n";
    LineOf(Clean(text), RAW_START);
    LineOf(Clean(text), RAW_END);
    var s, front := Isolate(text), RAW_START + line;
    assert s == front + RAW_END && s == RAW_START + (line + RAW_END);
    AtSuffix(RAW_START, line + RAW_END, RAW_START, 0);
    AtSuffix(front, RAW_END, RAW_END, |front|);
    if At(s, RAW_START, k) { OnlyAtEnds(line, RAW_START, k); }
    if At(s, RAW_END, k) { OnlyAtEnds(line, RAW_END, k); }
    assert s[..18] == RAW_START[..18];
  }

  // ------------------------------------------------------ what cleaning keeps

  lemma {:induction false} ReplaceNothing(s: string, p: string, r: string)
    requires p != "" && Free(s, p)
    ensures Replace(s, p, r) == s
    decreases |s|
  {
    if |s| >= |p| {
      assert !At(s, p, 0);
      FreeSuffix(s, p, 1);
      ReplaceNothing(s[1..], p, r);
    }
  }

  lemma {:induction false} ReplaceKeepsLength(s: string, p: string, r: string)
    requires p != "" && |r| == |p|
    ensures |Replace(s, p, r)| == |s|
    decreases |s|
  {
    if |s| >= |p| {
      if s[..|p|] == p { ReplaceKeepsLength(s[|p|..], p, r); } else { ReplaceKeepsLength(s[1..], p, r); }
    }
  }

  /** Cleaning changes a text exactly when it carries a marker; it never changes
      the length, and cleaning twice is cleaning once. */
  lemma {:induction false} CleanOnlyMarkers(text: string)
    ensures Clean(text) == text <==> Free(text, RAW_START) && Free(text, RAW_END)
    ensures |Clean(text)| == |text|
    ensures Clean(Clean(text)) == Clean(text)
  {
    Markers();
    CleanIsFree(text);
    if Free(text, RAW_START) && Free(text, RAW_END) {
      ReplaceNothing(text, RAW_START, SAFE_START);
      ReplaceNothing(text, RAW_END, SAFE_END);
    }
    ReplaceKeepsLength(text, RAW_START, SAFE_START);
    ReplaceKeepsLength(Replace(text, RAW_START, SAFE_START), RAW_END, SAFE_END);
    ReplaceNothing(Clean(text), RAW_START, SAFE_START);
    ReplaceNothing(Clean(text), RAW_END, SAFE_END);
  }

  // -------------------------------------------- reading a whole prompt back

  /** A prompt: trusted text, then isolated texts each followed by trusted text. */
  datatype Block = Block(external: string, glue: string)

  function Compose(head: string, blocks: seq<Block>): string
    decreases |blocks|
  {
    if blocks == [] then head else head + Isolate(blocks[0].external) + Compose(blocks[0].glue, blocks[1..])
  }

  /** A reader that honours the markers: text outside them, and each text inside. */
  datatype Reading = Reading(outside: string, inside: seq<string>)

  function ReadData(s: string): (r: (string, string))
    ensures |r.1| <= |s|
  {
    if s == "" then ("", "")
    else if RAW_END <= s then ("", s[|RAW_END|..])
    else var r := ReadData(s[1..]); ([s[0]] + r.0, r.1)
  }

  function Read(s: string): Reading
    decreases |s|
  {
    if s == "" then Reading("", [])
    else if RAW_START <= s then
      var data := ReadData(s[|RAW_START|..]);
      var rest := Read(data.1);
      Reading(rest.outside, [data.0] + rest.inside)
    else
      var rest := Read(s[1..]);
      Reading([s[0]] + rest.outside, rest.inside)
  }

  lemma {:induction false} ReadPlain(s: string)
    requires s != "" && !(RAW_START <= s)
    ensures Read(s) == Reading([s[0]] + Read(s[1..]).outside, Read(s[1..]).inside)
  {}

  lemma {:induction false} ReadMarked(s: string)
    ensures Read(RAW_START + s)
         == Reading(Read(ReadData(s).1).outside, [ReadData(s).0] + Read(ReadData(s).1).inside)
  {
    assert (RAW_START + s)[|RAW_START|..] == s;
  }

  lemma {:induction false} ReadDataUpTo(d: string, rest: string)
    requires Free(d, RAW_END)
    ensures ReadData(d + (RAW_END + rest)) == (d, rest)
    decreases |d|
  {
    Markers();
    var tail := RAW_END + rest;
    if d == "" {
      assert d + tail == tail && tail[|RAW_END|..] == rest;
    } else {
      NotAtHead(d, tail, RAW_END);
      FreeSuffix(d, RAW_END, 1);
      ReadDataUpTo(d[1..], rest);
      assert (d + tail)[1..] == d[1..] + tail;
      assert d == [d[0]] + d[1..];
    }
  }

  /** Marker-free text before a bracket does not begin with a marker. */
  lemma {:induction false} NotAtHead(g: string, s: string, q: string)
    requires Bracketed(q) && g != "" && Free(g, q) && (s != "" ==> s[0] == '[')
    ensures !(q <= g + s)
  {
    if q <= g + s {
      assert At(g + s, q, 0);
      NoStraddle(g, s, q, 0);
      AtSuffix(g, s, q, 0);
    }
  }

  lemma {:induction false} StartMarker()
    ensures Bracketed(RAW_START) && RAW_START[0] == '['
  {}

  lemma {:induction false} ReadGlueStep(g: string, s: string)
    requires g != "" && Free(g, RAW_START) && (s == "" || RAW_START <= s)
    ensures Read(g + s) == Reading([g[0]] + Read(g[1..] + s).outside, Read(g[1..] + s).inside)
  {
    StartMarker();
    NotAtHead(g, s, RAW_START);
    ReadPlain(g + s);
    JoinedTail(g, s);
  }

  lemma {:induction false} HeadBack(g: string, t: string)
    requires g != ""
    ensures [g[0]] + (g[1..] + t) == g + t
  {}

  lemma {:induction false} ReadGlue(g: string, s: string)
    requires Free(g, RAW_START) && (s == "" || RAW_START <= s)
    ensures Read(g + s) == Reading(g + Read(s).outside, Read(s).inside)
    decreases |g|
  {
    if g == "" {
      assert g + s == s;
      assert g + Read(s).outside == Read(s).outside;
    } else {
      FreeSuffix(g, RAW_START, 1);
      ReadGlue(g[1..], s);
      ReadGlueStep(g, s);
      HeadBack(g, Read(s).outside);
    }
  }

  function Glued(head: string, blocks: seq<Block>): string
    decreases |blocks|
  {
    if blocks == [] then head else head + Glued(blocks[0].glue, blocks[1..])
  }

  function Externals(blocks: seq<Block>): seq<string> {
    if blocks == [] then [] else ["\n" + Clean(blocks[0].external) + "\n"] + Externals(blocks[1..])
  }

  lemma {:induction false} IsolatedShape(text: string, rest: string)
    ensures Isolate(text) + rest == RAW_START + (("\n" + Clean(text) + "\n") + (RAW_END + rest))
  {}

  lemma {:induction false} ReadIsolated(text: string, rest: string)
    ensures Read(Isolate(text) + rest)
         == Reading(Read(rest).outside, ["\n" + Clean(text) + "\n"] + Read(rest).inside)
    ensures RAW_START <= Isolate(text) + rest
  {
    Markers();
    CleanIsFree(text);
    var line := "\n" + Clean(text) + "\n";
    LineOf(Clean(text), RAW_END);
    ReadDataUpTo(line, rest);
    IsolatedShape(text, rest);
    ReadMarked(line + (RAW_END + rest));
  }

  /** Round trip: a reader that honours the markers gets every external text back
      as data, cleaned and nothing else, and all the trusted text and only it
      outside, however many texts are embedded and whatever they contain. */
  lemma {:induction false} PromptReadsBack(head: string, blocks: seq<Block>)
    requires Free(head, RAW_START) && forall b | b in blocks :: Free(b.glue, RAW_START)
    ensures Read(Compose(head, blocks)) == Reading(Glued(head, blocks), Externals(blocks))
    decreases |blocks|
  {
    Markers();
    if blocks == [] {
      ReadGlue(head, "");
      assert head + "" == head;
    } else {
      var text, tail := blocks[0].external, Compose(blocks[0].glue, blocks[1..]);
      PromptReadsBack(blocks[0].glue, blocks[1..]);
      ReadIsolated(text, tail);
      ReadGlue(head, Isolate(text) + tail);
      assert Compose(head, blocks) == head + (Isolate(text) + tail);
    }
  }
}
