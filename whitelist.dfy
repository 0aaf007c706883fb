/** The home whitelist: where the configuration may hold it, and how a
    comma-separated string or a list is normalised into a set of trimmed,
    non-empty network names or addresses (SATpwn.py `_load_home_whitelist`). */
module Whitelist {
  import opened Common

  // ---------------------------------------------------------------------
  // Splitting on commas (Python's `str.split(',')`)
  // ---------------------------------------------------------------------

  /** The pieces of `s` between commas, left to right. Like Python, the
      empty string gives one empty piece and adjacent commas give empty
      pieces. */
  function Split(s: string): (r: seq<string>)
    ensures |r| >= 1
    decreases |s|
  {
    if s == [] then [""]
    else
      var rest := Split(s[1..]);
      if s[0] == ',' then [""] + rest
      else [[s[0]] + rest[0]] + rest[1..]
  }

  /** No piece contains a comma. */
  lemma {:induction false} SplitPiecesCommaFree(s: string)
    ensures forall i :: 0 <= i < |Split(s)| ==> ',' !in Split(s)[i]
    decreases |s|
  {
    if s != [] {
      SplitPiecesCommaFree(s[1..]);
      var rest := Split(s[1..]);
      if s[0] != ',' {
        assert ',' !in [s[0]] + rest[0];
        assert forall i :: 1 <= i < |Split(s)| ==> Split(s)[i] == rest[i];
      } else {
        assert forall i :: 1 <= i < |Split(s)| ==> Split(s)[i] == rest[i - 1];
      }
    }
  }

  /** The inverse of Split: the pieces with a comma between each two. */
  function Join(pieces: seq<string>): string
    requires |pieces| >= 1
  {
    if |pieces| == 1 then pieces[0] else pieces[0] + "," + Join(pieces[1..])
  }

  /** Joining the pieces of a string gives the string back. */
  lemma {:induction false} JoinSplit(s: string)
    ensures Join(Split(s)) == s
    decreases |s|
  {
    if s != [] {
      var rest := Split(s[1..]);
      JoinSplit(s[1..]);
      if s[0] == ',' {
        assert Split(s) == [""] + rest;
        assert s == "" + "," + Join(rest);
      } else {
        assert Split(s) == [[s[0]] + rest[0]] + rest[1..];
        if |rest| == 1 {
          assert s == [s[0]] + s[1..];
        } else {
          assert Join(rest) == rest[0] + "," + Join(rest[1..]);
          assert s == [s[0]] + s[1..];
          assert ([[s[0]] + rest[0]] + rest[1..])[1..] == rest[1..];
        }
      }
    }
  }

  /** Splitting a comma-free prefix glued onto `t` extends the first piece of `t`. */
  lemma {:induction false} SplitCommaFreePrefix(a: string, t: string)
    requires ',' !in a
    ensures Split(a + t) == [a + Split(t)[0]] + Split(t)[1..]
    decreases |a|
  {
    var st := Split(t);
    if a == [] {
      assert a + t == t;
      assert a + st[0] == st[0];
      assert st == [st[0]] + st[1..];
    } else {
      var at := a + t;
      assert at[0] == a[0] && a[0] != ',';
      assert at[1..] == a[1..] + t;
      SplitCommaFreePrefix(a[1..], t);
      var rest := Split(at[1..]);
      assert rest == [a[1..] + st[0]] + st[1..];
      assert rest[0] == a[1..] + st[0];
      assert rest[1..] == st[1..];
      assert Split(at) == [[at[0]] + rest[0]] + rest[1..];
      assert [a[0]] + (a[1..] + st[0]) == a + st[0];
    }
  }

  /** Splitting the join of comma-free pieces gives the pieces back. */
  lemma {:induction false} SplitJoin(pieces: seq<string>)
    requires |pieces| >= 1
    requires forall i :: 0 <= i < |pieces| ==> ',' !in pieces[i]
    ensures Split(Join(pieces)) == pieces
  {
    var p0 := pieces[0];
    if |pieces| == 1 {
      SplitCommaFreePrefix(p0, "");
      assert p0 + "" == p0;
      assert Split("") == [""];
    } else {
      var rest := pieces[1..];
      SplitJoin(rest);
      var j := Join(rest);
      var t := "," + j;
      assert Join(pieces) == p0 + t;
      assert t != [] && t[0] == ',' && t[1..] == j;
      assert Split(t) == [""] + rest;
      SplitCommaFreePrefix(p0, t);
      assert p0 + "" == p0;
      assert pieces == [p0] + rest;
    }
  }

  // ---------------------------------------------------------------------
  // Trimming (Python's `str.strip()`)
  // ---------------------------------------------------------------------

  /** `s` without its leading whitespace. */
  function TrimLeft(s: string): string
  {
    if s != [] && IsSpace(s[0]) then TrimLeft(s[1..]) else s
  }

  /** `s` without its trailing whitespace. */
  function TrimRight(s: string): string
  {
    if s != [] && IsSpace(s[|s| - 1]) then TrimRight(s[..|s| - 1]) else s
  }

  /** What `TrimLeft` removes is a whitespace prefix, and what it keeps does
      not start with whitespace. */
  lemma {:induction false} TrimLeftShape(s: string)
    ensures |TrimLeft(s)| <= |s|
    ensures TrimLeft(s) == s[|s| - |TrimLeft(s)|..]
    ensures AllSpace(s[..|s| - |TrimLeft(s)|])
    ensures TrimLeft(s) == [] || !IsSpace(TrimLeft(s)[0])
    decreases |s|
  {
    if s != [] && IsSpace(s[0]) {
      var r := TrimLeft(s[1..]);
      TrimLeftShape(s[1..]);
      assert s[1..][|s| - 1 - |r|..] == s[|s| - |r|..];
      var n := |s| - |r|;
      assert s[..n] == [s[0]] + s[1..][..n - 1];
    }
  }

  /** What `TrimRight` removes is a whitespace suffix, and what it keeps
      does not end with whitespace. */
  lemma {:induction false} TrimRightShape(s: string)
    ensures |TrimRight(s)| <= |s|
    ensures TrimRight(s) == s[..|TrimRight(s)|]
    ensures AllSpace(s[|TrimRight(s)|..])
    ensures TrimRight(s) == [] || !IsSpace(TrimRight(s)[|TrimRight(s)| - 1])
    decreases |s|
  {
    if s != [] && IsSpace(s[|s| - 1]) {
      var p := s[..|s| - 1];
      var r := TrimRight(p);
      TrimRightShape(p);
      assert p[..|r|] == s[..|r|];
      assert s[|r|..] == p[|r|..] + [s[|s| - 1]];
    }
  }

  /** `s` without leading and trailing whitespace. */
  function Trim(s: string): string
  {
    TrimRight(TrimLeft(s))
  }

  /** `s[i..j]` is the part of `s` left once the whitespace before `i`
      and after `j` is removed. */
  ghost predicate SurroundedBySpace(s: string, i: int, j: int)
  {
    0 <= i <= j <= |s| && AllSpace(s[..i]) && AllSpace(s[j..])
  }

  /** A trimmed string is a contiguous piece of the original, surrounded
      only by whitespace, that neither starts nor ends with whitespace. */
  lemma TrimIsCore(s: string)
    ensures exists i, j :: SurroundedBySpace(s, i, j) && Trim(s) == s[i..j]
    ensures Trim(s) == [] || (!IsSpace(Trim(s)[0]) && !IsSpace(Trim(s)[|Trim(s)| - 1]))
  {
    var i, j := TrimBounds(s);
    TrimEnds(s);
  }

  lemma TrimBounds(s: string) returns (i: int, j: int)
    ensures SurroundedBySpace(s, i, j) && Trim(s) == s[i..j]
  {
    var l := TrimLeft(s);
    TrimLeftShape(s);
    i := |s| - |l|;
    var r := TrimRight(l);
    TrimRightShape(l);
    var k := |r|;
    j := i + k;
    assert l == s[i..] && r == l[..k];
    assert s[j..] == l[k..];
    assert s[i..j] == r;
  }

  lemma TrimEnds(s: string)
    ensures Trim(s) == [] || (!IsSpace(Trim(s)[0]) && !IsSpace(Trim(s)[|Trim(s)| - 1]))
  {
    var l := TrimLeft(s);
    TrimLeftShape(s);
    var r := TrimRight(l);
    TrimRightShape(l);
    if r != [] {
      assert r[0] == l[0];
    }
  }

  /** Trimming is determined by the core: whitespace around a string that
      does not start or end with whitespace is exactly what is removed. */
  lemma {:induction false} TrimSurrounded(w1: string, x: string, w2: string)
    requires AllSpace(w1) && AllSpace(w2)
    requires x == [] || (!IsSpace(x[0]) && !IsSpace(x[|x| - 1]))
    ensures Trim(w1 + x + w2) == x
  {
    var t := x + w2;
    assert w1 + x + w2 == w1 + t;
    TrimLeftSpaces(w1, t);
    if x == [] {
      assert t == w2;
      TrimLeftAllSpace(w2);
    } else {
      TrimLeftStops(t);
      TrimRightSpaces(x, w2);
    }
  }

  lemma TrimLeftStops(t: string)
    requires t != [] && !IsSpace(t[0])
    ensures TrimLeft(t) == t
  {
  }

  lemma {:induction false} TrimLeftSpaces(w: string, t: string)
    requires AllSpace(w)
    ensures TrimLeft(w + t) == TrimLeft(t)
    decreases |w|
  {
    if w != [] {
      assert (w + t)[1..] == w[1..] + t;
      TrimLeftSpaces(w[1..], t);
    } else {
      assert w + t == t;
    }
  }

  lemma {:induction false} TrimLeftAllSpace(w: string)
    requires AllSpace(w)
    ensures TrimLeft(w) == [] && TrimRight([]) == []
    decreases |w|
  {
    if w != [] {
      TrimLeftAllSpace(w[1..]);
    }
  }

  lemma {:induction false} TrimRightSpaces(x: string, w: string)
    requires AllSpace(w)
    requires x != [] && !IsSpace(x[|x| - 1])
    ensures TrimRight(x + w) == x
    decreases |w|
  {
    if w == [] {
      assert x + w == x;
    } else {
      var w' := w[..|w| - 1];
      assert (x + w)[..|x + w| - 1] == x + w';
      TrimRightSpaces(x, w');
    }
  }

  /** Trimming twice is trimming once. */
  lemma TrimIdempotent(s: string)
    ensures Trim(Trim(s)) == Trim(s)
  {
    TrimIsCore(s);
    var t := Trim(s);
    TrimSurrounded([], t, []);
    assert [] + t + [] == t;
  }

  // ---------------------------------------------------------------------
  // Normalisation of the configured value
  // ---------------------------------------------------------------------

  /** The configured whitelist value as the configuration parser yields it:
      a string, a list (each item already turned into text, as `str(x)`
      does), or a value of some other type. */
  datatype WhitelistValue = Text(text: string) | Items(items: seq<string>) | OtherType

  /** The non-empty trimmed forms of the pieces. */
  function TrimmedNonEmpty(pieces: seq<string>): set<string>
  {
    if pieces == [] then {}
    else
      var t := Trim(pieces[0]);
      (if t != "" then {t} else {}) + TrimmedNonEmpty(pieces[1..])
  }

  /** The whitelist entries a configured value stands for. */
  function Normalise(v: WhitelistValue): set<string>
  {
    match v
    case Text(s) => TrimmedNonEmpty(Split(s))
    case Items(xs) => TrimmedNonEmpty(xs)
    case OtherType => {}
  }

  /** Some piece trims to `x`. */
  ghost predicate SomePieceTrimsTo(pieces: seq<string>, x: string)
    decreases |pieces|
  {
    pieces != [] && (Trim(pieces[0]) == x || SomePieceTrimsTo(pieces[1..], x))
  }

  /** The piece that trims to `x`. */
  lemma {:induction false} PieceTrimmingTo(pieces: seq<string>, x: string) returns (i: int)
    requires SomePieceTrimsTo(pieces, x)
    ensures 0 <= i < |pieces| && Trim(pieces[i]) == x
    decreases |pieces|
  {
    if Trim(pieces[0]) == x {
      i := 0;
    } else {
      var j := PieceTrimmingTo(pieces[1..], x);
      i := j + 1;
    }
  }

  /** An entry comes from the pieces exactly when it is the non-empty trim
      of one of them. */
  lemma {:induction false} TrimmedNonEmptyMembers(pieces: seq<string>, x: string)
    ensures x in TrimmedNonEmpty(pieces) <==> x != "" && SomePieceTrimsTo(pieces, x)
  {
    if pieces != [] {
      TrimmedNonEmptyMembers(pieces[1..], x);
    }
  }

  /** Every entry is non-empty and already trimmed. */
  lemma NormalisedEntriesTrimmed(v: WhitelistValue, x: string)
    requires x in Normalise(v)
    ensures x != "" && Trim(x) == x
  {
    var pieces := match v case Text(s) => Split(s) case Items(xs) => xs case OtherType => [];
    TrimmedNonEmptyMembers(pieces, x);
    var i := PieceTrimmingTo(pieces, x);
    TrimIdempotent(pieces[i]);
  }

  /** A comma-separated string normalises to exactly the non-empty trimmed
      pieces between its commas, and no entry contains a comma. */
  lemma TextEntries(s: string, x: string)
    ensures x in Normalise(Text(s)) <==> x != "" && SomePieceTrimsTo(Split(s), x)
    ensures x in Normalise(Text(s)) ==> ',' !in x
  {
    TrimmedNonEmptyMembers(Split(s), x);
    if x in Normalise(Text(s)) {
      var i := PieceTrimmingTo(Split(s), x);
      SplitPiecesCommaFree(s);
      CommaFreeTrim(Split(s)[i]);
    }
  }

  /** Trimming a comma-free piece leaves it comma-free. */
  lemma CommaFreeTrim(p: string)
    requires ',' !in p
    ensures ',' !in Trim(p)
  {
    TrimIsCore(p);
    var a, b :| SurroundedBySpace(p, a, b) && Trim(p) == p[a..b];
  }

  // ---------------------------------------------------------------------
  // Locating the value in the configuration
  // ---------------------------------------------------------------------

  /** The `[main]` entry of the configuration: absent, present but not a
      table, or a table that may hold `home_whitelist` and `whitelist`. */
  datatype MainSection =
    | NoMain
    | MainNotTable
    | MainTable(homeWhitelist: Option<WhitelistValue>, whitelist: Option<WhitelistValue>)

  /** The parts of a parsed configuration the lookup consults: a flat key
      `"main.home_whitelist"`, the `[main]` entry, and a top-level
      `home_whitelist` key. */
  datatype Config = Config(
    flatKey: Option<WhitelistValue>,
    main: MainSection,
    topLevel: Option<WhitelistValue>)

  /** The configuration file: missing, unreadable or unparseable, or parsed. */
  datatype ConfigFile = ConfigMissing | ConfigUnreadable | ConfigParsed(conf: Config)

  /** The lookup order: the flat key; else, if `[main]` is a table, its
      `home_whitelist` or else its `whitelist`; else the top-level key. */
  function FindWhitelist(c: Config): Option<WhitelistValue>
  {
    if c.flatKey.Some? then c.flatKey
    else if c.main.MainTable? then
      (if c.main.homeWhitelist.Some? then c.main.homeWhitelist else c.main.whitelist)
    else c.topLevel
  }

  /** The whitelist loaded at start-up. */
  function LoadWhitelist(f: ConfigFile): (r: set<string>)
    ensures !f.ConfigParsed? ==> r == {}
    ensures forall x :: x in r ==> x != "" && Trim(x) == x
  {
    var found := if f.ConfigParsed? then FindWhitelist(f.conf) else None;
    var r := if found.Some? then Normalise(found.value) else {};
    forall x | x in r ensures x != "" && Trim(x) == x {
      NormalisedEntriesTrimmed(found.value, x);
    }
    r
  }

  /** A `[main]` table that holds neither key hides a top-level
      `home_whitelist`: the lookup stops at the table. */
  lemma MainTableShadowsTopLevel(c: Config)
    requires c.flatKey.None? && c.main == MainTable(None, None)
    ensures LoadWhitelist(ConfigParsed(c)) == {}
  {
  }

  /** The flat key takes precedence over everything else. */
  lemma FlatKeyWins(c: Config, v: WhitelistValue)
    requires c.flatKey == Some(v)
    ensures LoadWhitelist(ConfigParsed(c)) == Normalise(v)
  {
  }
}
