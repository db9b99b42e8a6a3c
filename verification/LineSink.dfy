/** The sink that cuts a child process's output into lines, redacts them and logs them,
    whatever the pieces in which the output arrives. */
module LineSink {
  import opened Basics

  datatype Failure = Unknown | Known(kind: nat)

  const MAX_LINE := 8192
  const MAX_PEM_LINES := 200
  const PEM_MARK := "[REDACTED PEM]"
  const MASK := "[REDACTED]"

  // ----- lines of a stream ------------------------------------------------------------------

  /** The part after the last newline. */
  function Rest(s: string): string {
    if s == "" then ""
    else if s[|s| - 1] == '\n' then ""
    else Rest(s[..|s| - 1]) + [s[|s| - 1]]
  }

  /** The lines ended by a newline. */
  function Lines(s: string): seq<string> {
    if s == "" then []
    else if s[|s| - 1] == '\n' then Lines(s[..|s| - 1]) + [Rest(s[..|s| - 1])]
    else Lines(s[..|s| - 1])
  }

  function Rejoined(lines: seq<string>): string {
    if lines == [] then "" else Rejoined(lines[..|lines| - 1]) + lines[|lines| - 1] + "\n"
  }

  predicate NoNewline(s: string) {
    forall i | 0 <= i < |s| :: s[i] != '\n'
  }

  /** The lines and the rest are the stream, cut at its newlines and nowhere else. */
  lemma {:induction false} LinesAreTheStream(s: string)
    ensures Rejoined(Lines(s)) + Rest(s) == s && NoNewline(Rest(s))
    ensures forall i | 0 <= i < |Lines(s)| :: NoNewline(Lines(s)[i])
  {
    if s != "" {
      var init := s[..|s| - 1];
      LinesAreTheStream(init);
      assert s == init + [s[|s| - 1]];
      if s[|s| - 1] == '\n' {
        assert Lines(s)[..|Lines(s)| - 1] == Lines(init);
      }
    }
  }

  lemma {:induction false} MoreOfTheLine(s: string, b: string)
    requires NoNewline(b)
    ensures Rest(s + b) == Rest(s) + b && Lines(s + b) == Lines(s)
  {
    if b == "" {
      assert s + b == s;
    } else {
      var init, c := b[..|b| - 1], b[|b| - 1];
      MoreOfTheLine(s, init);
      assert (s + b)[..|s + b| - 1] == s + init && (s + b)[|s + b| - 1] == c;
      assert Rest(s + b) == Rest(s + init) + [c] && Lines(s + b) == Lines(s + init);
      assert Rest(s) + b == Rest(s) + init + [c];
    }
  }

  lemma EndOfTheLine(s: string)
    ensures Rest(s + "\n") == "" && Lines(s + "\n") == Lines(s) + [Rest(s)]
  {
    assert (s + "\n")[..|s|] == s;
  }

  /** Conversely, the lines of lines that were ended one by one are those lines. */
  lemma {:induction false} LinesOfRejoined(lines: seq<string>)
    requires forall i | 0 <= i < |lines| :: NoNewline(lines[i])
    ensures Lines(Rejoined(lines)) == lines && Rest(Rejoined(lines)) == ""
  {
    if lines != [] {
      var init, last := lines[..|lines| - 1], lines[|lines| - 1];
      LinesOfRejoined(init);
      MoreOfTheLine(Rejoined(init), last);
      EndOfTheLine(Rejoined(init) + last);
      assert "" + last == last && lines == init + [last];
    }
  }

  function Cut(line: string): string {
    if |line| <= MAX_LINE then line else line[..MAX_LINE]
  }

  lemma CutGrows(line: string, b: string)
    ensures Cut(line + b) ==
            var room := MAX_LINE - |Cut(line)|;
            if room == 0 then Cut(line) else if |b| > room then Cut(line) + b[..room] else Cut(line) + b
  {}

  function TrimCr(s: string): string {
    if s != "" && s[|s| - 1] == '\r' then TrimCr(s[..|s| - 1]) else s
  }

  // ----- redaction -----------------------------------------------------------------------------

  predicate BlockNameChar(c: char) {
    'A' <= c <= 'Z' || '0' <= c <= '9' || c == ' '
  }

  predicate StartsAt(s: string, i: nat, t: string) {
    i + |t| <= |s| && s[i..i + |t|] == t
  }

  /** Five hyphens, the word, a space and a block name, five hyphens. */
  predicate MarkAt(s: string, i: nat, j: nat, word: string) {
    && i + 6 + |word| < j <= |s| && StartsAt(s, i, "-----" + word + " ") && StartsAt(s, j, "-----")
    && forall k | i + 6 + |word| <= k < j :: BlockNameChar(s[k])
  }

  predicate HasPemMark(s: string, word: string) {
    exists i, j | 0 <= i < |s| && i < j <= |s| :: MarkAt(s, i, j, word)
  }

  predicate Contains(s: string, t: string) {
    exists i :: 0 <= i <= |s| && StartsAt(s, i, t)
  }

  function ReplaceAll(s: string, t: string, u: string): string
    requires t != ""
    decreases |s|
  {
    if |s| < |t| then s
    else if s[..|t|] == t then u + ReplaceAll(s[|t|..], t, u)
    else [s[0]] + ReplaceAll(s[1..], t, u)
  }

  function MaskSecrets(s: string, secrets: seq<string>): string
    requires forall i | 0 <= i < |secrets| :: secrets[i] != ""
    decreases |secrets|
  {
    if secrets == [] then s else MaskSecrets(ReplaceAll(s, secrets[0], MASK), secrets[1..])
  }

  function Printable(s: string): string {
    seq(|s|, i requires 0 <= i < |s| => if s[i] == '\t' || (s[i] >= ' ' && s[i] != 127 as char) then s[i] else '?')
  }

  datatype Pem = Pem(inside: bool, lines: nat)

  type Secrets = s: seq<string> | forall i | 0 <= i < |s| :: s[i] != ""

  /** What becomes of one line, and of the block state; nothing inside a block is kept. */
  function RedactLine(p: Pem, s: string, secrets: Secrets): (Pem, Option<string>) {
    if p.inside then
      (Pem(!HasPemMark(s, "END") && p.lines + 1 < MAX_PEM_LINES, p.lines + 1), None)
    else if HasPemMark(s, "BEGIN") then
      (if HasPemMark(s, "END") then p else Pem(true, 0), Some(PEM_MARK))
    else if Contains(s, "PRIVATE KEY") then (p, Some(PEM_MARK))
    else (p, Some(Printable(MaskSecrets(s, secrets))))
  }

  /** The redactor of one stream, as the step it takes for a line. */
  type Redactor = (Pem, string) -> (Pem, Option<string>)

  function RedactorFor(secrets: Secrets): Redactor {
    (p, s) => RedactLine(p, s, secrets)
  }

  // ----- what is logged of a list of lines --------------------------------------------------------

  datatype Entry = Entry(text: string, truncated: bool)

  function Fed(lines: seq<string>, redact: Redactor): (Pem, seq<Entry>) {
    if lines == [] then (Pem(false, 0), [])
    else
      var last := lines[|lines| - 1];
      var (p, log) := Fed(lines[..|lines| - 1], redact);
      var (after, out) := redact(p, TrimCr(Cut(last)));
      (after, if out.Some? then log + [Entry(out.value, |last| > MAX_LINE)] else log)
  }

  function LastN<T>(xs: seq<T>, n: nat): seq<T> {
    if |xs| <= n then xs else xs[|xs| - n..]
  }

  /** One more at the end, the first dropped when there are n already. */
  function Pushed<T>(xs: seq<T>, x: T, n: nat): seq<T>
    requires n > 0
  {
    (if |xs| == n then xs[1..] else xs) + [x]
  }

  function Texts(log: seq<Entry>, mask: string -> string): seq<string> {
    if log == [] then [] else Texts(log[..|log| - 1], mask) + [mask(log[|log| - 1].text)]
  }

  function FirstKnown(log: seq<Entry>, classify: string -> Failure): Failure {
    if log == [] then Unknown
    else
      var f := FirstKnown(log[..|log| - 1], classify);
      if f != Unknown then f else classify(log[|log| - 1].text)
  }

  /** Each line is fed once, in order; what is kept of it carries whether it was cut. */
  lemma {:induction false} OneMoreLine(lines: seq<string>, line: string, redact: Redactor)
    ensures var (p, log) := Fed(lines, redact);
            var (after, out) := redact(p, TrimCr(Cut(line)));
            Fed(lines + [line], redact) ==
              (after, if out.Some? then log + [Entry(out.value, |line| > MAX_LINE)] else log)
  {
    assert (lines + [line])[..|lines|] == lines;
  }

  lemma OneMoreEntry(log: seq<Entry>, e: Entry, mask: string -> string, classify: string -> Failure, n: nat)
    ensures Texts(log + [e], mask) == Texts(log, mask) + [mask(e.text)]
    ensures FirstKnown(log + [e], classify) ==
            var f := FirstKnown(log, classify); if f != Unknown then f else classify(e.text)
    ensures n > 0 ==> LastN(Texts(log + [e], mask), n) == Pushed(LastN(Texts(log, mask), n), mask(e.text), n)
  {
    assert (log + [e])[..|log|] == log;
  }

  /** The failure is the classification of the first line that has one. */
  lemma {:induction false} FirstKnownIsFirst(log: seq<Entry>, classify: string -> Failure)
    ensures FirstKnown(log, classify) == Unknown <==> forall i | 0 <= i < |log| :: classify(log[i].text) == Unknown
    ensures FirstKnown(log, classify) != Unknown ==>
              exists i :: 0 <= i < |log| && classify(log[i].text) == FirstKnown(log, classify)
                          && forall j | 0 <= j < i :: classify(log[j].text) == Unknown
  {
    if log != [] {
      var init := log[..|log| - 1];
      FirstKnownIsFirst(init, classify);
      assert forall i | 0 <= i < |init| :: init[i] == log[i];
      if FirstKnown(init, classify) != Unknown {
        var i :| 0 <= i < |init| && classify(init[i].text) == FirstKnown(init, classify)
                 && forall j | 0 <= j < i :: classify(init[j].text) == Unknown;
        assert classify(log[i].text) == FirstKnown(log, classify);
      } else {
        assert classify(log[|log| - 1].text) == FirstKnown(log, classify);
      }
    }
  }

  /** Inside a block nothing is kept, until a line that ends it or the last it may have. */
  ghost predicate DropsBlocks(redact: Redactor, ends: string -> bool) {
    forall n: nat, s: string ::
      redact(Pem(true, n), s) == (Pem(!ends(s) && n + 1 < MAX_PEM_LINES, n + 1), None)
  }

  function EndsBlock(): string -> bool {
    s => HasPemMark(s, "END")
  }

  lemma RedactorsDropBlocks(secrets: Secrets)
    ensures DropsBlocks(RedactorFor(secrets), EndsBlock())
  {}

  lemma DropsOne(lines: seq<string>, line: string, redact: Redactor, ends: string -> bool, n: nat)
    requires DropsBlocks(redact, ends) && Fed(lines, redact).0 == Pem(true, n)
    ensures Fed(lines + [line], redact) ==
            (Pem(!ends(TrimCr(Cut(line))) && n + 1 < MAX_PEM_LINES, n + 1), Fed(lines, redact).1)
  {
    OneMoreLine(lines, line, redact);
    var s := TrimCr(Cut(line));
    assert redact(Pem(true, n), s) == (Pem(!ends(s) && n + 1 < MAX_PEM_LINES, n + 1), None);
  }

  /** After a line that opens a block, nothing is logged up to and including the line that
      closes it, or the two hundredth. */
  lemma {:induction false} BlocksAreDropped(lines: seq<string>, body: seq<string>, redact: Redactor, ends: string -> bool)
    requires DropsBlocks(redact, ends)
    requires Fed(lines, redact).0 == Pem(true, 0) && |body| <= MAX_PEM_LINES
    requires forall i | 0 <= i < |body| - 1 :: !ends(TrimCr(Cut(body[i])))
    ensures Fed(lines + body, redact).1 == Fed(lines, redact).1
    ensures Fed(lines + body, redact).0.lines == |body|
    ensures Fed(lines + body, redact).0.inside <==>
            |body| < MAX_PEM_LINES && (body == [] || !ends(TrimCr(Cut(body[|body| - 1]))))
  {
    if body == [] {
      assert lines + body == lines;
    } else {
      var init, last := body[..|body| - 1], body[|body| - 1];
      BlocksAreDropped(lines, init, redact, ends);
      assert lines + body == (lines + init) + [last];
      assert init != [] ==> init[|init| - 1] == body[|body| - 2];
      assert Fed(lines + init, redact).0 == Pem(true, |init|);
      DropsOne(lines + init, last, redact, ends, |init|);
    }
  }

  /** A line as the redactor gets it. */
  function Shown(line: string): string {
    TrimCr(Cut(line))
  }

  /** A block in a stream, opened outside any other: one entry says that it was there, and
      nothing of it is logged, neither its lines nor the ones that open and close it. The line
      after it is treated like any other. */
  lemma {:induction false} BlockInAStream(lines: seq<string>, begin: string, body: seq<string>, secrets: Secrets)
    requires !Fed(lines, RedactorFor(secrets)).0.inside
    requires HasPemMark(Shown(begin), "BEGIN") && !HasPemMark(Shown(begin), "END")
    requires 0 < |body| <= MAX_PEM_LINES && forall i | 0 <= i < |body| - 1 :: !HasPemMark(Shown(body[i]), "END")
    requires |body| == MAX_PEM_LINES || HasPemMark(Shown(body[|body| - 1]), "END")
    ensures var (p, log) := Fed(lines + [begin] + body, RedactorFor(secrets));
            !p.inside && log == Fed(lines, RedactorFor(secrets)).1 + [Entry(PEM_MARK, |begin| > MAX_LINE)]
  {
    var redact := RedactorFor(secrets);
    OneMoreLine(lines, begin, redact);
    BlockOpens(Fed(lines, redact).0, Shown(begin), secrets);
    RedactorsDropBlocks(secrets);
    forall i | 0 <= i < |body| - 1 ensures !EndsBlock()(TrimCr(Cut(body[i]))) {
      assert !HasPemMark(Shown(body[i]), "END");
    }
    BlocksAreDropped(lines + [begin], body, redact, EndsBlock());
  }

  /** A line is fed as it came, up to its bound, without the carriage returns at its end. */
  lemma {:induction false} ShownIsTheLine(line: string)
    ensures Shown(line) <= line && (|line| <= MAX_LINE ==> forall i | |Shown(line)| <= i < |line| :: line[i] == '\r')
    ensures Shown(line) != "" ==> Shown(line)[|Shown(line)| - 1] != '\r'
    ensures |line| <= MAX_LINE && (line == "" || line[|line| - 1] != '\r') ==> Shown(line) == line
  {
    TrimmedOfCr(Cut(line));
  }

  lemma {:induction false} TrimmedOfCr(s: string)
    ensures TrimCr(s) <= s && forall i | |TrimCr(s)| <= i < |s| :: s[i] == '\r'
    ensures TrimCr(s) != "" ==> TrimCr(s)[|TrimCr(s)| - 1] != '\r'
  {
    if s != "" && s[|s| - 1] == '\r' {
      TrimmedOfCr(s[..|s| - 1]);
    }
  }

  /** Outside a block a line that speaks of a private key is not shown either. */
  lemma PrivateKeysAreReplaced(p: Pem, s: string, secrets: Secrets)
    requires !p.inside && Contains(s, "PRIVATE KEY") && !HasPemMark(s, "BEGIN")
    ensures RedactLine(p, s, secrets) == (p, Some(PEM_MARK))
  {}

  lemma BlockOpens(p: Pem, s: string, secrets: Secrets)
    requires !p.inside && HasPemMark(s, "BEGIN") && !HasPemMark(s, "END")
    ensures RedactLine(p, s, secrets) == (Pem(true, 0), Some(PEM_MARK))
  {}

  /** Nothing that could forge a log record or drive a terminal is logged. */
  predicate IsPrintable(c: char) {
    c == '\t' || (' ' <= c && c != 127 as char)
  }

  lemma {:induction false} LogIsPrintable(lines: seq<string>, secrets: Secrets)
    ensures forall e | e in Fed(lines, RedactorFor(secrets)).1 :: forall i | 0 <= i < |e.text| :: IsPrintable(e.text[i])
  {
    if lines != [] {
      var init, last := lines[..|lines| - 1], lines[|lines| - 1];
      LogIsPrintable(init, secrets);
      assert lines == init + [last];
      OneMoreLine(init, last, RedactorFor(secrets));
      LineIsPrintable(Fed(init, RedactorFor(secrets)).0, Shown(last), secrets);
    }
  }

  lemma LineIsPrintable(p: Pem, s: string, secrets: Secrets)
    ensures var out := RedactLine(p, s, secrets).1;
            out.Some? ==> forall i | 0 <= i < |out.value| :: IsPrintable(out.value[i])
  {}

  function Joined(pieces: seq<string>, t: string): string
    requires pieces != []
  {
    if |pieces| == 1 then pieces[0] else pieces[0] + t + Joined(pieces[1..], t)
  }

  lemma JoinedAfter(x: string, pieces: seq<string>, t: string)
    requires pieces != []
    ensures Joined([x + pieces[0]] + pieces[1..], t) == x + Joined(pieces, t)
    ensures Joined([x] + pieces, t) == x + t + Joined(pieces, t)
  {
    assert ([x + pieces[0]] + pieces[1..])[1..] == pieces[1..];
    assert ([x] + pieces)[1..] == pieces;
    if |pieces| > 1 {
      assert x + pieces[0] + t + Joined(pieces[1..], t) == x + (pieces[0] + t + Joined(pieces[1..], t));
    }
  }

  /** A replacement leaves everything between the occurrences as it is, and no occurrence
      between those it replaces. */
  lemma {:induction false} ReplacesOccurrences(s: string, t: string, u: string) returns (pieces: seq<string>)
    requires t != ""
    ensures pieces != [] && s == Joined(pieces, t) && ReplaceAll(s, t, u) == Joined(pieces, u)
    ensures forall i | 0 <= i < |pieces| :: !Contains(pieces[i], t)
    decreases |s|
  {
    if |s| < |t| {
      pieces := [s];
    } else if s[..|t|] == t {
      var rest := ReplacesOccurrences(s[|t|..], t, u);
      pieces := [""] + rest;
      JoinedAfter("", rest, t);
      JoinedAfter("", rest, u);
      assert s == t + s[|t|..] && "" + t + Joined(rest, t) == t + Joined(rest, t);
      assert "" + u + Joined(rest, u) == u + Joined(rest, u);
    } else {
      var rest := ReplacesOccurrences(s[1..], t, u);
      pieces := [[s[0]] + rest[0]] + rest[1..];
      JoinedAfter([s[0]], rest, t);
      JoinedAfter([s[0]], rest, u);
      FirstPieceIsPrefix(rest, t);
      assert s == [s[0]] + s[1..];
      NoneAtTheStart(s, [s[0]] + rest[0], t);
    }
  }

  lemma FirstPieceIsPrefix(pieces: seq<string>, t: string)
    requires pieces != []
    ensures pieces[0] <= Joined(pieces, t)
  {}

  lemma NoneAtTheStart(s: string, p: string, t: string)
    requires p != "" && p <= s && |t| <= |s| && s[..|t|] != t && !Contains(p[1..], t)
    ensures !Contains(p, t)
  {
    assert p == s[..|p|];
    assert |t| <= |p| ==> s[..|p|][..|t|] == s[..|t|];
    forall i: nat | 0 < i ensures StartsAt(p, i, t) ==> StartsAt(p[1..], i - 1, t) {
      StartsInTheTail(p, t, i);
    }
  }

  lemma StartsInTheTail(p: string, t: string, i: nat)
    requires p != "" && 0 < i
    ensures StartsAt(p, i, t) ==> StartsAt(p[1..], i - 1, t)
  {
    if StartsAt(p, i, t) {
      assert p == p[..1] + p[1..];
      StartsInTheRest(p[..1], p[1..], t, i);
    }
  }

  /** So a line with no mark and no secret is logged as it is, what does not print aside. */
  lemma {:induction false} OrdinaryLinesAreLogged(p: Pem, s: string, secrets: Secrets)
    requires !p.inside && !HasPemMark(s, "BEGIN") && !Contains(s, "PRIVATE KEY")
    requires forall r | r in secrets :: !Contains(s, r)
    requires forall i | 0 <= i < |s| :: IsPrintable(s[i])
    ensures RedactLine(p, s, secrets) == (p, Some(s))
  {
    NothingToMask(s, secrets);
    assert Printable(s) == s;
  }

  lemma {:induction false} NothingToMask(s: string, secrets: seq<string>)
    requires forall i | 0 <= i < |secrets| :: secrets[i] != ""
    requires forall r | r in secrets :: !Contains(s, r)
    ensures MaskSecrets(s, secrets) == s
    decreases |secrets|
  {
    if secrets != [] {
      var pieces := ReplacesOccurrences(s, secrets[0], MASK);
      if |pieces| > 1 {
        OccursBetween(pieces, secrets[0]);
      }
      NothingToMask(s, secrets[1..]);
    }
  }

  lemma OccursBetween(pieces: seq<string>, t: string)
    requires |pieces| > 1
    ensures Contains(Joined(pieces, t), t)
  {
    var s := Joined(pieces, t);
    assert s[|pieces[0]|..|pieces[0]| + |t|] == t;
    assert StartsAt(s, |pieces[0]|, t);
  }

  // ----- secrets ----------------------------------------------------------------------------------

  predicate AllPrintable(s: string) {
    forall i | 0 <= i < |s| :: IsPrintable(s[i])
  }

  predicate Unmarked(s: string) {
    !HasPemMark(s, "BEGIN") && !Contains(s, "PRIVATE KEY")
  }

  /** Laid beside the value at the distance d, the mask agrees with it wherever both are. */
  predicate MatchesMask(r: string, d: int) {
    forall k | 0 <= k < |r| && 0 <= k - d < |MASK| :: r[k] == MASK[k - d]
  }

  /** Some characters of a mask, with what comes before and after it, can make up the value. */
  predicate OverlapsMask(r: string) {
    exists d :: -|MASK| < d < |r| && MatchesMask(r, d)
  }

  /** The values that can be logged although they are listed: those that occur in the mark of a
      block, or that a mask or a replaced character can complete in a line that is shown. */
  predicate CanShow(r: string) {
    && AllPrintable(r)
    && (Contains(PEM_MARK, r) || (Unmarked(r) && ('?' in r || OverlapsMask(r))))
  }

  lemma ContainsPart(s: string, i: nat, j: nat)
    requires i <= j <= |s|
    ensures Contains(s, s[i..j])
  {
    assert StartsAt(s, i, s[i..j]);
  }

  lemma ContainsIsTransitive(s: string, t: string, u: string)
    requires Contains(s, t) && Contains(t, u)
    ensures Contains(s, u)
  {
    var i :| 0 <= i <= |s| && StartsAt(s, i, t);
    var j :| 0 <= j <= |t| && StartsAt(t, j, u);
    forall k | 0 <= k < |u| ensures s[i + j + k] == u[k] {
      assert s[i..i + |t|][j + k] == t[j + k] == t[j..j + |u|][k];
    }
    assert s[i + j..i + j + |u|] == u;
    assert StartsAt(s, i + j, u);
  }

  lemma StartsInTheRest(before: string, rest: string, r: string, i: nat)
    requires |before| <= i && StartsAt(before + rest, i, r)
    ensures StartsAt(rest, i - |before|, r)
  {
    var s, o := before + rest, i - |before|;
    forall k | 0 <= k < |r| ensures rest[o + k] == r[k] {
      assert rest[o + k] == s[i + k] == s[i..i + |r|][k];
    }
    assert rest[o..o + |r|] == r;
  }

  lemma ComesLater(s: string, k: nat, r: string)
    requires k <= |s| && Contains(s[k..], r)
    ensures Contains(s, r)
  {
    assert s[k..|s|] == s[k..];
    ContainsPart(s, k, |s|);
    ContainsIsTransitive(s, s[k..], r);
  }

  /** What begins a line after a replacement began it before, unless a mask is part of it. */
  lemma {:induction false} BeganBefore(s: string, t: string, r: string, o: nat)
    requires t != "" && o <= |r| && StartsAt(ReplaceAll(s, t, MASK), 0, r[o..]) && !OverlapsMask(r)
    ensures StartsAt(s, 0, r[o..])
    decreases |s|
  {
    var out := ReplaceAll(s, t, MASK);
    if |s| >= |t| && o < |r| {
      assert forall k | o <= k < |r| :: r[k] == r[o..][k - o] == out[k - o];
      if s[..|t|] == t {
        assert MatchesMask(r, o);
      } else {
        StartsInTheRest([s[0]], ReplaceAll(s[1..], t, MASK), r[o + 1..], 1) by {
          assert out[1..|r| - o] == r[o + 1..];
        }
        BeganBefore(s[1..], t, r, o + 1);
        assert s[..|r| - o] == [s[0]] + s[1..][..|r| - o - 1] == r[o..];
      }
    }
  }

  lemma StartsAfterTheMask(rest: string, r: string, i: nat)
    requires r != "" && !OverlapsMask(r) && StartsAt(MASK + rest, i, r)
    ensures |MASK| <= i && StartsAt(rest, i - |MASK|, r)
  {
    var s := MASK + rest;
    assert forall k | 0 <= k < |r| :: r[k] == s[i..i + |r|][k] == s[i + k];
    var d: int := -(i as int);
    assert i < |MASK| ==> MatchesMask(r, d);
    StartsInTheRest(MASK, rest, r, i);
  }

  /** Nothing comes into a line by a replacement but what a mask is part of, and what is
      replaced is gone. */
  lemma {:induction false} NothingComesIn(s: string, t: string, r: string, i: nat)
    requires t != "" && r != "" && !OverlapsMask(r) && StartsAt(ReplaceAll(s, t, MASK), i, r)
    ensures r != t && Contains(s, r)
    decreases |s|
  {
    if |s| < |t| {
      assert StartsAt(s, i, r);
    } else if s[..|t|] == t {
      StartsAfterTheMask(ReplaceAll(s[|t|..], t, MASK), r, i);
      NothingComesIn(s[|t|..], t, r, i - |MASK|);
      ComesLater(s, |t|, r);
    } else if i == 0 {
      assert r[0..] == r;
      BeganBefore(s, t, r, 0);
      assert StartsAt(s, 0, r);
    } else {
      StartsInTheRest([s[0]], ReplaceAll(s[1..], t, MASK), r, i);
      NothingComesIn(s[1..], t, r, i - 1);
      ComesLater(s, 1, r);
    }
  }

  lemma {:induction false} MaskedStaysOut(s: string, secrets: seq<string>, r: string)
    requires (forall i | 0 <= i < |secrets| :: secrets[i] != "") && r != "" && !OverlapsMask(r)
    ensures Contains(MaskSecrets(s, secrets), r) ==> r !in secrets && Contains(s, r)
    decreases |secrets|
  {
    if secrets != [] && Contains(MaskSecrets(s, secrets), r) {
      var once := ReplaceAll(s, secrets[0], MASK);
      MaskedStaysOut(once, secrets[1..], r);
      var i :| 0 <= i <= |once| && StartsAt(once, i, r);
      NothingComesIn(s, secrets[0], r, i);
    }
  }

  lemma PrintedWasThere(s: string, r: string)
    requires Contains(Printable(s), r)
    ensures AllPrintable(r)
    ensures '?' !in r ==> Contains(s, r)
  {
    var out := Printable(s);
    var i :| 0 <= i <= |out| && StartsAt(out, i, r);
    assert forall k | 0 <= k < |r| :: out[i..i + |r|][k] == r[k] == out[i + k];
    if '?' !in r {
      forall k | 0 <= k < |r| ensures s[i..i + |r|][k] == r[k] {
        assert r[k] in r;
      }
      assert StartsAt(s, i, r);
    }
  }

  /** A mark on its own. */
  predicate IsMark(q: string, word: string) {
    |q| > 5 && MarkAt(q, 0, |q| - 5, word)
  }

  lemma MarkInside(s: string, word: string) returns (q: string)
    requires HasPemMark(s, word)
    ensures IsMark(q, word) && Contains(s, q)
  {
    var i, j :| 0 <= i < |s| && i < j <= |s| && MarkAt(s, i, j, word);
    q := s[i..j + 5];
    ContainsPart(s, i, j + 5);
    assert q[0..6 + |word|] == s[i..i + 6 + |word|];
    assert q[|q| - 5..|q|] == s[j..j + 5];
    forall k | 6 + |word| <= k < |q| - 5 ensures BlockNameChar(q[k]) {
      assert q[k] == s[i + k];
    }
  }

  lemma MarkMakes(s: string, q: string, word: string)
    requires IsMark(q, word) && Contains(s, q)
    ensures HasPemMark(s, word)
  {
    var i :| 0 <= i <= |s| && StartsAt(s, i, q);
    var j := i + |q| - 5;
    assert forall k | 0 <= k < |q| :: s[i + k] == s[i..i + |q|][k] == q[k];
    assert s[i..i + 6 + |word|] == q[0..6 + |word|] && s[j..j + 5] == q[|q| - 5..|q|];
    forall k | i + 6 + |word| <= k < j ensures BlockNameChar(s[k]) {
      assert s[k] == q[k - i];
    }
    assert MarkAt(s, i, j, word);
  }

  lemma NoOverlap(q: string)
    requires q != "" && MASK[0] !in q && q[0] !in MASK
    ensures !OverlapsMask(q)
  {
    forall d | -|MASK| < d < |q| ensures !MatchesMask(q, d) {
      if d >= 0 {
        assert q[d] in q && q[d] != MASK[d - d];
      } else {
        assert MASK[0 - d] in MASK && q[0] != MASK[0 - d];
      }
    }
  }

  lemma MarksHaveNoMask(q: string)
    requires IsMark(q, "BEGIN")
    ensures '?' !in q && !OverlapsMask(q) && q != ""
  {
    var head := "-----BEGIN ";
    assert forall k | 0 <= k < 11 :: q[k] == q[0..11][k] == head[k];
    assert forall k | |q| - 5 <= k < |q| :: q[k] == q[|q| - 5..|q|][k - (|q| - 5)] == '-';
    assert forall k | 0 <= k < |q| :: q[k] != '?' && q[k] != MASK[0];
    NoOverlap(q);
  }

  /** What is shown of a line without marks has none either. */
  lemma {:induction false} ShownIsUnmarked(s: string, secrets: Secrets, r: string)
    requires Unmarked(s) && Contains(Printable(MaskSecrets(s, secrets)), r)
    ensures Unmarked(r)
  {
    var shown := Printable(MaskSecrets(s, secrets));
    if Contains(r, "PRIVATE KEY") {
      NoOverlap("PRIVATE KEY");
      ContainsIsTransitive(shown, r, "PRIVATE KEY");
      PrintedWasThere(MaskSecrets(s, secrets), "PRIVATE KEY");
      MaskedStaysOut(s, secrets, "PRIVATE KEY");
    } else if HasPemMark(r, "BEGIN") {
      var q := MarkInside(r, "BEGIN");
      MarksHaveNoMask(q);
      ContainsIsTransitive(shown, r, q);
      PrintedWasThere(MaskSecrets(s, secrets), q);
      MaskedStaysOut(s, secrets, q);
      MarkMakes(s, q, "BEGIN");
    }
  }

  ghost predicate Shows(p: Pem, s: string, secrets: Secrets, r: string) {
    RedactLine(p, s, secrets).1.Some? && Contains(RedactLine(p, s, secrets).1.value, r)
  }

  lemma PartsArePrintable(s: string, r: string)
    requires AllPrintable(s) && Contains(s, r)
    ensures AllPrintable(r)
  {
    var i :| 0 <= i <= |s| && StartsAt(s, i, r);
    assert forall k | 0 <= k < |r| :: r[k] == s[i..i + |r|][k] == s[i + k];
  }

  lemma {:induction false} OnlySomeShow(p: Pem, s: string, secrets: Secrets, r: string)
    requires r in secrets && Shows(p, s, secrets, r)
    ensures CanShow(r)
  {
    if RedactLine(p, s, secrets).1.value == PEM_MARK {
      PartsArePrintable(PEM_MARK, r);
    } else {
      PrintedWasThere(MaskSecrets(s, secrets), r);
      ShownIsUnmarked(s, secrets, r);
      if !OverlapsMask(r) {
        MaskedStaysOut(s, secrets, r);
      }
    }
  }

  /** No entry of the log holds a listed secret that cannot show, whatever the stream. */
  lemma {:induction false} SecretsAreNotLogged(lines: seq<string>, secrets: Secrets, r: string)
    requires r in secrets && !CanShow(r)
    ensures forall e | e in Fed(lines, RedactorFor(secrets)).1 :: !Contains(e.text, r)
  {
    if lines != [] {
      var init, last := lines[..|lines| - 1], lines[|lines| - 1];
      SecretsAreNotLogged(init, secrets, r);
      assert lines == init + [last];
      OneMoreLine(init, last, RedactorFor(secrets));
      var p := Fed(init, RedactorFor(secrets)).0;
      if Shows(p, Shown(last), secrets, r) {
        OnlySomeShow(p, Shown(last), secrets, r);
      }
    }
  }

  // ----- how the others show ------------------------------------------------------------------------

  const GAP := 1 as char

  lemma {:induction false} GapDivides(x: string, y: string, q: string)
    requires GAP !in q && Contains(x + [GAP] + y, q)
    ensures Contains(x, q) || Contains(y, q)
  {
    var s := x + [GAP] + y;
    var i :| 0 <= i <= |s| && StartsAt(s, i, q);
    StartsAcross(s, i, q, |x|);
    if i + |q| <= |x| {
      assert s[i..i + |q|] == x[i..i + |q|];
      ContainsPart(x, i, i + |q|);
    } else if i > |x| {
      assert s == (x + [GAP]) + y;
      StartsInTheRest(x + [GAP], y, q, i);
    }
  }

  lemma StartsAcross(s: string, i: nat, q: string, m: nat)
    requires StartsAt(s, i, q)
    ensures i <= m < i + |q| ==> s[m] in q
  {
    if i <= m < i + |q| {
      assert s[m] == s[i..i + |q|][m - i] == q[m - i];
    }
  }

  /** A line of two unmarked parts of a value with a gap between them is shown. */
  lemma {:induction false} GapLineIsUnmarked(r: string, x: string, y: string)
    requires Unmarked(r) && Contains(r, x) && Contains(r, y)
    ensures Unmarked(x + [GAP] + y)
  {
    var s := x + [GAP] + y;
    if Contains(s, "PRIVATE KEY") {
      GapDivides(x, y, "PRIVATE KEY");
      ContainsIsTransitive(r, if Contains(x, "PRIVATE KEY") then x else y, "PRIVATE KEY");
    } else if HasPemMark(s, "BEGIN") {
      var q := MarkInside(s, "BEGIN");
      MarkHasNoGap(q);
      GapDivides(x, y, q);
      ContainsIsTransitive(r, if Contains(x, q) then x else y, q);
      MarkMakes(r, q, "BEGIN");
    }
  }

  lemma MarkHasNoGap(q: string)
    requires IsMark(q, "BEGIN")
    ensures GAP !in q
  {
    var head := "-----BEGIN ";
    assert forall k | 0 <= k < 11 :: q[k] == q[0..11][k] == head[k];
    assert forall k | |q| - 5 <= k < |q| :: q[k] == q[|q| - 5..|q|][k - (|q| - 5)] == '-';
    assert forall k | 0 <= k < |q| :: q[k] != GAP;
  }

  lemma OnlyTheWholeIsThere(s: string, r: string)
    requires |s| == |r| && s != r
    ensures !Contains(s, r)
  {
    assert s[0..|s|] == s;
  }

  /** A question mark stands for what does not print. */
  lemma {:induction false} QuestionMarkShows(r: string) returns (secrets: Secrets, s: string)
    requires AllPrintable(r) && Unmarked(r) && '?' in r
    ensures r in secrets && Shows(Pem(false, 0), s, secrets, r)
  {
    var k :| 0 <= k < |r| && r[k] == '?';
    s := r[..k] + [GAP] + r[k + 1..];
    secrets := [r];
    PartsAround(r, k);
    GapLineIsUnmarked(r, r[..k], r[k + 1..]);
    assert s[k] == GAP && r[k] != GAP;
    OnlyTheWholeIsThere(s, r);
    NothingThere(s, r);
    TwoMasked(s, r, r);
    GapIsPrinted(r, k);
  }

  lemma PartsAround(r: string, k: nat)
    requires k < |r|
    ensures Contains(r, r[..k]) && Contains(r, r[k + 1..]) && Contains(r, r)
  {
    assert r[0..k] == r[..k] && r[k + 1..|r|] == r[k + 1..] && r[0..|r|] == r;
    ContainsPart(r, 0, k);
    ContainsPart(r, k + 1, |r|);
    ContainsPart(r, 0, |r|);
  }

  lemma GapIsPrinted(r: string, k: nat)
    requires AllPrintable(r) && k < |r| && r[k] == '?'
    ensures Printable(r[..k] + [GAP] + r[k + 1..]) == r
  {}

  lemma NoGapThere(s: string)
    requires GAP !in s
    ensures !Contains(s, [GAP])
  {
    if Contains(s, [GAP]) {
      FirstOccurs(s, [GAP]);
    }
  }

  lemma {:induction false} GapIsMasked(x: string, y: string)
    requires GAP !in x && GAP !in y
    ensures ReplaceAll(x + [GAP] + y, [GAP], MASK) == x + MASK + y
    decreases |x|
  {
    var s := x + [GAP] + y;
    if x == "" {
      assert s[..1] == [GAP] && s[1..] == y;
      NoGapThere(y);
      NothingThere(y, [GAP]);
    } else {
      assert s[..1] == [x[0]] && s[1..] == x[1..] + [GAP] + y && x[0] in x;
      GapIsMasked(x[1..], y);
    }
  }

  lemma FirstOccurs(s: string, r: string)
    requires r != "" && Contains(s, r)
    ensures r[0] in s
  {
    var i :| 0 <= i <= |s| && StartsAt(s, i, r);
    assert s[i] == s[i..i + |r|][0];
  }

  lemma NothingThere(s: string, t: string)
    requires t != "" && !Contains(s, t)
    ensures ReplaceAll(s, t, MASK) == s
  {
    var pieces := ReplacesOccurrences(s, t, MASK);
    if |pieces| > 1 {
      OccursBetween(pieces, t);
    }
  }

  /** Where the value overlaps a mask, and what of it lies before and after. */
  function Before(r: string, d: int): string
    requires -|MASK| < d < |r|
  {
    if d < 0 then "" else r[..d]
  }

  function Behind(r: string, d: int): string
    requires -|MASK| < d < |r|
  {
    if d + |MASK| < |r| then r[d + |MASK|..] else ""
  }

  lemma MaskCompletes(r: string, d: int)
    requires -|MASK| < d < |r| && MatchesMask(r, d)
    ensures Contains(Before(r, d) + MASK + Behind(r, d), r)
  {
    var x, y := Before(r, d), Behind(r, d);
    var out, o := x + MASK + y, if d < 0 then -d else 0;
    forall k | 0 <= k < |r| ensures out[o + k] == r[k] {
      if k < d {
        assert out[o + k] == x[k];
      } else if k - d < |MASK| {
        assert out[o + k] == MASK[k - d] == r[k];
      } else {
        assert out[o + k] == y[k - d - |MASK|];
      }
    }
    assert out[o..o + |r|] == r;
    assert StartsAt(out, o, r);
  }

  lemma PartsOfTheValue(r: string, d: int)
    requires r != "" && -|MASK| < d < |r|
    ensures var x, y := Before(r, d), Behind(r, d); |x| < |r| && |y| < |r| && Contains(r, x) && Contains(r, y)
  {
    var j := if d + |MASK| < |r| then d + |MASK| else |r|;
    assert Before(r, d) == r[0..if d < 0 then 0 else d] && Behind(r, d) == r[j..|r|];
    ContainsPart(r, 0, if d < 0 then 0 else d);
    ContainsPart(r, j, |r|);
  }

  lemma MaskedInTheGap(r: string, x: string, y: string)
    requires r != "" && AllPrintable(r) && |x| < |r| && |y| < |r| && Contains(r, x) && Contains(r, y)
    ensures GAP !in r && MaskSecrets(x + [GAP] + y, [r, [GAP]]) == x + MASK + y
    ensures AllPrintable(x + MASK + y)
  {
    GapLineHasNoValue(r, x, y);
    PartsArePrintable(r, x);
    PartsArePrintable(r, y);
    assert !IsPrintable(GAP);
    NothingThere(x + [GAP] + y, r);
    GapIsMasked(x, y);
    TwoMasked(x + [GAP] + y, r, [GAP]);
  }

  lemma TwoMasked(s: string, a: string, b: string)
    requires a != "" && b != ""
    ensures MaskSecrets(s, [a]) == ReplaceAll(s, a, MASK)
    ensures MaskSecrets(s, [a, b]) == ReplaceAll(ReplaceAll(s, a, MASK), b, MASK)
  {
    var once := ReplaceAll(s, a, MASK);
    assert [a, b][1..] == [b] && [b][1..] == [] && [a][1..] == [];
    assert MaskSecrets(once, []) == once;
    assert MaskSecrets(once, [b]) == MaskSecrets(ReplaceAll(once, b, MASK), []);
  }

  /** A mask put beside the right characters completes the value. */
  lemma {:induction false} OverlapShows(r: string, d: int) returns (secrets: Secrets, s: string)
    requires AllPrintable(r) && Unmarked(r) && r != "" && -|MASK| < d < |r| && MatchesMask(r, d)
    ensures r in secrets && Shows(Pem(false, 0), s, secrets, r)
  {
    var x, y := Before(r, d), Behind(r, d);
    s := x + [GAP] + y;
    secrets := [r, [GAP]];
    PartsOfTheValue(r, d);
    GapLineIsUnmarked(r, x, y);
    MaskedInTheGap(r, x, y);
    assert Printable(x + MASK + y) == x + MASK + y;
    MaskCompletes(r, d);
  }

  lemma GapLineHasNoValue(r: string, x: string, y: string)
    requires r != "" && AllPrintable(r) && |x| < |r| && |y| < |r|
    ensures GAP !in r && !Contains(x + [GAP] + y, r)
  {
    assert !IsPrintable(GAP);
    if Contains(x + [GAP] + y, r) {
      GapDivides(x, y, r);
    }
  }

  /** Exactly the values that can show are shown for some list that has them, and some line. */
  lemma {:induction false} ShowsExactly(r: string)
    requires r != ""
    ensures CanShow(r) <==> exists secrets: Secrets, s: string :: r in secrets && Shows(Pem(false, 0), s, secrets, r)
  {
    if CanShow(r) {
      var secrets: Secrets, s: string;
      if Contains(PEM_MARK, r) {
        secrets, s := [r], "PRIVATE KEY";
        ContainsPart(s, 0, |s|);
        assert s[0..|s|] == s;
      } else if '?' in r {
        secrets, s := QuestionMarkShows(r);
      } else {
        var d :| -|MASK| < d < |r| && MatchesMask(r, d);
        secrets, s := OverlapShows(r, d);
      }
      assert r in secrets && Shows(Pem(false, 0), s, secrets, r);
    }
    forall secrets: Secrets, s: string | r in secrets && Shows(Pem(false, 0), s, secrets, r) ensures CanShow(r) {
      OnlySomeShow(Pem(false, 0), s, secrets, r);
    }
  }

  // ----- the sink -----------------------------------------------------------------------------------

  class LineSink {
    const redact: Redactor
    const tailCap: nat
    const classify: bool
    const classifyLine: string -> Failure
    const maskShapes: string -> string
    var pem: Pem
    var buf: string
    var truncated: bool
    var tail: seq<string>
    var failure: Failure
    var log: seq<Entry>
    ghost var stream: string   // what has been written, a flush counting as a newline

    constructor (redact: Redactor, tailCap: nat, classify: bool, classifyLine: string -> Failure, maskShapes: string -> string)
      ensures stream == "" && Valid()
      ensures this.redact == redact && this.tailCap == tailCap && this.classify == classify
      ensures this.classifyLine == classifyLine && this.maskShapes == maskShapes
    {
      this.redact, this.tailCap, this.classify := redact, tailCap, classify;
      this.classifyLine, this.maskShapes := classifyLine, maskShapes;
      pem, buf, truncated, tail, failure, log := Pem(false, 0), "", false, [], Unknown, [];
      stream := "";
    }

    /** Everything the sink holds is determined by the stream, not by its pieces. */
    ghost predicate Valid()
      reads this
    {
      && buf == Cut(Rest(stream)) && (truncated <==> |Rest(stream)| > MAX_LINE)
      && (pem, log) == Fed(Lines(stream), redact)
      && KeptOk()
    }

    /** The tail is the last of what was logged, the failure the first one recognized. */
    ghost predicate KeptOk()
      reads this
    {
      && tail == LastN(Texts(log, maskShapes), tailCap)
      && failure == if classify then FirstKnown(log, classifyLine) else Unknown
    }

    /** Adds to the line, up to its bound. */
    method Append(b: string)
      requires Valid() && NoNewline(b)
      modifies this`buf, this`truncated, this`stream
      ensures Valid() && stream == old(stream) + b
    {
      MoreOfTheLine(stream, b);
      CutGrows(Rest(stream), b);
      stream := stream + b;
      if |buf| >= MAX_LINE {
        if |b| > 0 {
          truncated := true;
        }
        return;
      }
      var room := MAX_LINE - |buf|;
      if |b| > room {
        buf := buf + b[..room];
        truncated := true;
        return;
      }
      buf := buf + b;
    }

    /** Logs what is kept of a line. */
    method Keep(e: Entry)
      requires KeptOk()
      modifies this`log, this`failure, this`tail
      ensures KeptOk() && log == old(log) + [e]
    {
      OneMoreEntry(log, e, maskShapes, classifyLine, tailCap);
      log := log + [e];
      if classify && failure == Unknown {
        failure := classifyLine(e.text);
      }
      if tailCap > 0 {
        if |tail| == tailCap {
          tail := tail[1..];
        }
        tail := tail + [maskShapes(e.text)];
      }
    }

    /** Redacts and logs the line. */
    method Emit()
      requires Valid()
      modifies this
      ensures Valid() && stream == old(stream) + "\n"
    {
      EndOfTheLine(stream);
      OneMoreLine(Lines(stream), Rest(stream), redact);
      var (after, out) := redact(pem, TrimCr(buf));
      pem := after;
      if out.Some? {
        Keep(Entry(out.value, truncated));
      }
      buf := "";
      truncated := false;
      stream := stream + "\n";
    }

    method EndLine(b: string)
      requires Valid() && NoNewline(b)
      modifies this
      ensures Valid() && stream == old(stream) + (b + "\n")
    {
      Append(b);
      Emit();
    }

    /** Consumes the piece up to its first newline, or all of it. */
    method WriteLine(p: string) returns (left: string)
      requires Valid() && p != ""
      modifies this
      ensures Valid() && |left| < |p| && p[|p| - |left|..] == left
      ensures stream == old(stream) + p[..|p| - |left|]
    {
      var i := IndexNewline(p);
      if i == |p| {
        Append(p);
        left := "";
      } else {
        EndLine(p[..i]);
        left := p[i + 1..];
        assert p[..i + 1] == p[..i] + "\n";
      }
    }

    method Write(p: string) returns (n: nat)
      requires Valid()
      modifies this
      ensures Valid() && stream == old(stream) + p && n == |p|
    {
      var left := p;
      ghost var before := stream;
      while |left| > 0
        invariant Valid() && |left| <= |p| && p[|p| - |left|..] == left
        invariant stream == before + p[..|p| - |left|]
        decreases |left|
      {
        ghost var was := left;
        left := WriteLine(left);
        Advance(before, p, |p| - |was|, |p| - |left|);
      }
      n := |p|;
    }

    /** Logs a trailing line without a newline, if there is one. */
    method Flush()
      requires Valid()
      modifies this
      ensures Valid() && stream == Ended(old(stream))
    {
      if |buf| > 0 {
        Emit();
      }
    }

    method WriteAll(pieces: seq<string>)
      requires Valid()
      modifies this
      ensures Valid() && stream == old(stream) + Concat(pieces)
    {
      ghost var before := stream;
      for i := 0 to |pieces|
        invariant Valid() && stream == before + Concat(pieces[..i])
      {
        var _ := Write(pieces[i]);
        OneMorePiece(before, pieces, i);
      }
      assert pieces[..|pieces|] == pieces;
    }

    /** A whole output in any pieces, then a flush: what is logged depends on their
        concatenation only. */
    method Pump(pieces: seq<string>)
      requires Valid() && stream == ""
      modifies this
      ensures log == Fed(Lines(Ended(Concat(pieces))), redact).1 && KeptOk()
    {
      WriteAll(pieces);
      assert stream == Concat(pieces);
      Flush();
    }
  }

  lemma Advance(before: string, p: string, i: nat, j: nat)
    requires i <= j <= |p|
    ensures (before + p[..i]) + p[i..][..j - i] == before + p[..j] && p[i..][j - i..] == p[j..]
  {}

  lemma OneMorePiece(before: string, pieces: seq<string>, i: nat)
    requires i < |pieces|
    ensures (before + Concat(pieces[..i])) + pieces[i] == before + Concat(pieces[..i + 1])
  {
    assert pieces[..i + 1][..i] == pieces[..i];
  }

  /** The stream with its last line ended. */
  function Ended(s: string): string {
    if Rest(s) == "" then s else s + "\n"
  }

  function Concat(pieces: seq<string>): string {
    if pieces == [] then "" else Concat(pieces[..|pieces| - 1]) + pieces[|pieces| - 1]
  }

  method IndexNewline(s: string) returns (i: nat)
    ensures i <= |s| && NoNewline(s[..i]) && (i < |s| ==> s[i] == '\n')
  {
    i := 0;
    while i < |s| && s[i] != '\n'
      invariant i <= |s| && NoNewline(s[..i])
    {
      i := i + 1;
    }
  }
}
