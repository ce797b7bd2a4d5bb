/**
 StringSlice as a database column: the Postgres array printer and its parser.
 Neither quotes, so not every slice survives the trip; here is which ones do.
 */
module ArrayText {
  import opened Prelude

  /** What a driver hands to Scan. */
  datatype Source = Null | Text(s: string) | Bytes(b: string) | Unsupported

  function JoinWith(ss: seq<string>): string {
    if ss == [] then "" else if |ss| == 1 then ss[0] else ss[0] + [','] + JoinWith(ss[1..])
  }

  predicate Brace(c: char) {
    c == '{' || c == '}'
  }

  function TrimLeft(s: string): (t: string)
    ensures t == "" || !Brace(t[0])
    ensures |t| <= |s| && t == s[|s| - |t|..] && forall k :: 0 <= k < |s| - |t| ==> Brace(s[k])
  {
    if s != "" && Brace(s[0]) then TrimLeft(s[1..]) else s
  }

  function TrimRight(s: string): (t: string)
    ensures t == "" || !Brace(t[|t| - 1])
    ensures |t| <= |s| && t == s[..|t|] && forall k :: |t| <= k < |s| ==> Brace(s[k])
  {
    if s != "" && Brace(s[|s| - 1]) then TrimRight(s[..|s| - 1]) else s
  }

  /** strings.Trim(s, "{}") */
  function Trim(s: string): string {
    TrimRight(TrimLeft(s))
  }

  /** strings.Split at commas; never empty. */
  function Split(s: string): (ss: seq<string>)
    ensures ss != []
  {
    if s == "" then [""]
    else if s[0] == ',' then [""] + Split(s[1..])
    else
      var rest := Split(s[1..]);
      [[s[0]] + rest[0]] + rest[1..]
  }

  function Printed(ss: seq<string>): string {
    ['{'] + JoinWith(ss) + ['}']
  }

  function Parsed(s: string): seq<string> {
    if Trim(s) == "" then [] else Split(Trim(s))
  }

  class StringSlice {
    var ss: Option<seq<string>>   // None is Go's nil slice

    constructor (ss: Option<seq<string>>)
      ensures this.ss == ss
    {
      this.ss := ss;
    }

    /** Scan; on an unsupported source it fails and leaves the slice alone. */
    method Scan(src: Source) returns (ok: bool)
      modifies this
      ensures ok <==> !src.Unsupported?
      ensures src.Unsupported? ==> ss == old(ss)
      ensures src.Null? ==> ss == None
      ensures src.Text? ==> ss == Some(Parsed(src.s))
      ensures src.Bytes? ==> ss == Some(Parsed(src.b))
    {
      if src.Null? {
        ss := None;
        return true;
      }
      if src.Unsupported? { return false; }
      var s := Trim(if src.Text? then src.s else src.b);
      if s == "" { ss := Some([]); } else { ss := Some(Split(s)); }
      ok := true;
    }

    method Value() returns (v: Source)
      ensures v == if ss.None? then Null else Text(Printed(ss.value))
    {
      if ss.None? { return Null; }
      v := Text(['{'] + JoinWith(ss.value) + ['}']);
    }
  }

  predicate CommaFree(ss: seq<string>) {
    forall i :: 0 <= i < |ss| ==> ',' !in ss[i]
  }

  lemma {:induction false} SplitIsCommaFree(s: string)
    ensures CommaFree(Split(s))
  {
    if s != "" { SplitIsCommaFree(s[1..]); }
  }

  lemma {:induction false} JoinUndoesSplit(s: string)
    ensures JoinWith(Split(s)) == s
  {
    if s != "" {
      var rest := Split(s[1..]);
      JoinUndoesSplit(s[1..]);
      if s[0] == ',' {
        assert ([""] + rest)[1..] == rest;
      } else {
        assert ([[s[0]] + rest[0]] + rest[1..])[1..] == rest[1..];
      }
    }
  }

  lemma {:induction false} SplitElement(s: string)
    requires ',' !in s
    ensures Split(s) == [s]
  {
    if s != "" {
      SplitElement(s[1..]);
      assert [s[0]] + s[1..] == s;
    }
  }

  lemma {:induction false} SplitAfter(s: string, rest: string)
    requires ',' !in s
    ensures Split(s + [','] + rest) == [s] + Split(rest)
  {
    if s == "" {
      assert (s + [','] + rest)[1..] == rest;
    } else {
      var whole, tail := s + [','] + rest, Split(s[1..] + [','] + rest);
      assert whole[1..] == s[1..] + [','] + rest && whole[0] == s[0] != ',';
      SplitAfter(s[1..], rest);
      assert tail[0] == s[1..] && tail[1..] == Split(rest);
      assert [s[0]] + s[1..] == s;
    }
  }

  lemma {:induction false} SplitUndoesJoin(ss: seq<string>)
    requires ss != [] && CommaFree(ss)
    ensures Split(JoinWith(ss)) == ss
  {
    if |ss| == 1 {
      SplitElement(ss[0]);
    } else {
      SplitUndoesJoin(ss[1..]);
      SplitAfter(ss[0], JoinWith(ss[1..]));
    }
  }

  /** The text neither starts nor ends with a brace of its own. */
  predicate Bare(s: string) {
    s == "" || (!Brace(s[0]) && !Brace(s[|s| - 1]))
  }

  lemma TrimBraces(s: string)
    ensures Trim(['{'] + s + ['}']) == s <==> Bare(s)
    ensures Bare(Trim(['{'] + s + ['}']))
  {
    assert (['{'] + s + ['}'])[1..] == s + ['}'];
    if s != "" && Bare(s) {
      assert TrimLeft(['{'] + s + ['}']) == s + ['}'];
      assert (s + ['}'])[..|s|] == s;
    }
  }

  /** A slice survives the database exactly when it needs no quoting. */
  lemma RoundTrip(ss: seq<string>)
    ensures Parsed(Printed(ss)) == ss <==> CommaFree(ss) && ss != [""] && Bare(JoinWith(ss))
  {
    var text := JoinWith(ss);
    var t := Trim(Printed(ss));
    TrimBraces(text);
    if Parsed(Printed(ss)) == ss {
      if t != "" {
        JoinUndoesSplit(t);
        SplitIsCommaFree(t);
      }
    }
    if CommaFree(ss) && ss != [""] && Bare(text) && ss != [] {
      SplitUndoesJoin(ss);
    }
  }

  /** What does come back is stable: a second trip changes nothing. */
  lemma SecondTripIsExact(s: string)
    ensures Parsed(Printed(Parsed(s))) == Parsed(s)
  {
    var t := Trim(s);
    if t != "" {
      JoinUndoesSplit(t);
      SplitIsCommaFree(t);
      RoundTrip(Split(t));
    } else {
      RoundTrip([]);
    }
  }
}
