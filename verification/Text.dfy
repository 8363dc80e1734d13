/** The parts of Go's strings package the schedule code relies on. */
module Text {
  predicate HasPrefix(s: string, prefix: string) {
    prefix <= s
  }

  function TrimPrefix(s: string, prefix: string): string {
    if HasPrefix(s, prefix) then s[|prefix|..] else s
  }

  /** strings.Split for a one-character separator: never empty, pieces between separators. */
  function Split(s: string, sep: char): (parts: seq<string>)
    ensures parts != []
  {
    if s == [] then [""]
    else if s[0] == sep then [""] + Split(s[1..], sep)
    else
      var tail := Split(s[1..], sep);
      [[s[0]] + tail[0]] + tail[1..]
  }

  function TrimLeft(s: string, c: char): string {
    if s != [] && s[0] == c then TrimLeft(s[1..], c) else s
  }

  function TrimRight(s: string, c: char): string {
    if s != [] && s[|s| - 1] == c then TrimRight(s[..|s| - 1], c) else s
  }

  /** strings.Trim for a one-character cut set. */
  function Trim(s: string, c: char): string {
    TrimRight(TrimLeft(s, c), c)
  }

  /** Splitting distributes over a separator. */
  lemma {:induction false} SplitConcat(a: string, b: string, sep: char)
    ensures Split(a + [sep] + b, sep) == Split(a, sep) + Split(b, sep)
  {
    var whole := a + [sep] + b;
    if a == [] {
      assert whole[1..] == b;
    } else {
      assert whole[1..] == a[1..] + [sep] + b;
      SplitConcat(a[1..], b, sep);
    }
  }

  lemma {:induction false} SplitWithout(s: string, sep: char)
    requires sep !in s
    ensures Split(s, sep) == [s]
  {
    if s != [] {
      SplitWithout(s[1..], sep);
      assert [s[0]] + s[1..] == s;
    }
  }

  lemma TrimPrefixUndoesIt(s: string, prefix: string)
    ensures TrimPrefix(prefix + s, prefix) == s
    ensures !HasPrefix(s, prefix) ==> TrimPrefix(s, prefix) == s
  {
  }

  lemma {:induction false} TrimLeftCut(s: string, c: char) returns (cut: string)
    ensures s == cut + TrimLeft(s, c) && forall x | x in cut :: x == c
    ensures TrimLeft(s, c) != [] ==> TrimLeft(s, c)[0] != c
  {
    if s != [] && s[0] == c {
      cut := TrimLeftCut(s[1..], c);
      cut := [c] + cut;
      assert s == [c] + s[1..];
    } else {
      cut := [];
    }
  }

  lemma {:induction false} TrimRightCut(s: string, c: char) returns (cut: string)
    ensures s == TrimRight(s, c) + cut && forall x | x in cut :: x == c
    ensures TrimRight(s, c) != [] ==> TrimRight(s, c)[|TrimRight(s, c)| - 1] != c
  {
    if s != [] && s[|s| - 1] == c {
      cut := TrimRightCut(s[..|s| - 1], c);
      cut := cut + [c];
      assert s == s[..|s| - 1] + [c];
    } else {
      cut := [];
    }
  }

  /** Trim cuts nothing but c off both ends, and all of it. */
  lemma TrimCutsTheEnds(s: string, c: char) returns (left: string, right: string)
    ensures s == left + (Trim(s, c) + right)
    ensures (forall x | x in left :: x == c) && forall x | x in right :: x == c
    ensures Trim(s, c) != [] ==> Trim(s, c)[0] != c && Trim(s, c)[|Trim(s, c)| - 1] != c
  {
    left := TrimLeftCut(s, c);
    var rest := TrimLeft(s, c);
    right := TrimRightCut(rest, c);
    if Trim(s, c) != [] {
      assert rest[0] == Trim(s, c)[0];
    }
  }
}
