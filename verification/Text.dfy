/** The string operations the program takes from its standard library, with the laws
    the names and summaries rest on. */
module Text {

  /** Unicode white space. */
  predicate IsSpace(c: char) {
    var n := c as int;
    || 9 <= n <= 13 || n == 32 || n == 0x85 || n == 0xA0 || n == 0x1680 || 0x2000 <= n <= 0x200A
    || n == 0x2028 || n == 0x2029 || n == 0x202F || n == 0x205F || n == 0x3000
  }

  function TrimSpace(s: string): string
    decreases |s|
  {
    if s == "" then s
    else if IsSpace(s[0]) then TrimSpace(s[1..])
    else if IsSpace(s[|s| - 1]) then TrimSpace(s[..|s| - 1])
    else s
  }

  /** Trimming takes white space from both ends, all of it and nothing else. */
  lemma {:induction false} TrimmedHasNoSpaceAround(s: string) returns (lead: string, tail: string)
    ensures var t := TrimSpace(s); t != "" ==> !IsSpace(t[0]) && !IsSpace(t[|t| - 1])
    ensures s == lead + TrimSpace(s) + tail
    ensures forall i | 0 <= i < |lead| :: IsSpace(lead[i])
    ensures forall i | 0 <= i < |tail| :: IsSpace(tail[i])
    decreases |s|
  {
    lead, tail := "", "";
    if s != "" && IsSpace(s[0]) {
      lead, tail := TrimmedHasNoSpaceAround(s[1..]);
      lead := [s[0]] + lead;
    } else if s != "" && IsSpace(s[|s| - 1]) {
      lead, tail := TrimmedHasNoSpaceAround(s[..|s| - 1]);
      tail := tail + [s[|s| - 1]];
    }
  }

  function LowerChar(c: char): char {
    if 'A' <= c <= 'Z' then c - 'A' + 'a' else c
  }

  /** Lower-cases ASCII letters. */
  function ToLower(s: string): string {
    seq(|s|, i requires 0 <= i < |s| => LowerChar(s[i]))
  }

  /** The parts of s between dots; there is always at least one. */
  function Split(s: string): (parts: seq<string>)
    ensures |parts| >= 1
  {
    if s == "" then [""]
    else
      var rest := Split(s[1..]);
      if s[0] == '.' then [""] + rest else [[s[0]] + rest[0]] + rest[1..]
  }

  function Join(parts: seq<string>): string
    requires |parts| >= 1
  {
    if |parts| == 1 then parts[0] else parts[0] + "." + Join(parts[1..])
  }

  lemma {:induction false} JoinUndoesSplit(s: string)
    ensures Join(Split(s)) == s
  {
    if s != "" {
      JoinUndoesSplit(s[1..]);
      var rest := Split(s[1..]);
      if s[0] == '.' {
        assert Split(s)[1..] == rest;
        assert s == "" + "." + s[1..];
      } else {
        assert Split(s)[1..] == rest[1..];
        assert s == [s[0]] + s[1..];
      }
    }
  }

  lemma {:induction false} SplitAtDot(x: string, y: string)
    ensures Split(x + "." + y) == Split(x) + Split(y)
  {
    var s := x + "." + y;
    if x == "" {
      assert s[1..] == y;
    } else {
      assert s[1..] == x[1..] + "." + y;
      SplitAtDot(x[1..], y);
    }
  }

  lemma {:induction false} JoinConcat(xs: seq<string>, ys: seq<string>)
    requires |xs| >= 1 && |ys| >= 1
    ensures Join(xs + ys) == Join(xs) + "." + Join(ys)
  {
    if |xs| == 1 {
      assert (xs + ys)[1..] == ys;
    } else {
      assert (xs + ys)[1..] == xs[1..] + ys;
      JoinConcat(xs[1..], ys);
    }
  }

  lemma {:induction false} PartsHaveNoDot(s: string, i: nat)
    requires i < |Split(s)|
    ensures '.' !in Split(s)[i]
  {
    if s != "" {
      if s[0] == '.' {
        if i > 0 {
          PartsHaveNoDot(s[1..], i - 1);
        }
      } else {
        PartsHaveNoDot(s[1..], i);
      }
    }
  }

  /** Every character but the dots is in some part, and the parts bring in no other. */
  lemma {:induction false} CharsOfParts(s: string, p: char -> bool)
    requires forall i | 0 <= i < |Split(s)| :: forall j | 0 <= j < |Split(s)[i]| :: p(Split(s)[i][j])
    ensures forall k | 0 <= k < |s| :: s[k] == '.' || p(s[k])
  {
    if s != "" {
      var rest := Split(s[1..]);
      var parts := Split(s);
      forall i | 0 <= i < |rest| ensures forall j | 0 <= j < |rest[i]| :: p(rest[i][j]) {
        if s[0] == '.' {
          assert rest[i] == parts[i + 1];
        } else if i > 0 {
          assert rest[i] == parts[i];
        } else {
          assert forall j | 0 <= j < |rest[0]| :: rest[0][j] == parts[0][j + 1];
        }
      }
      CharsOfParts(s[1..], p);
      assert s[0] == '.' || s[0] == parts[0][0];
      forall k | 0 <= k < |s| ensures s[k] == '.' || p(s[k]) {
        assert k > 0 ==> s[k] == s[1..][k - 1];
      }
    }
  }
}
