/**
 The command-line handling of the phrase generator script: the dependency-free
 option parser and the `--sets` list.
 */
module PhraseArgs {
  import opened JsText

  /** An option's value: `true` for a bare flag, or the token that followed it. */
  datatype OptValue = Flag | Text(text: string)

  type Options = map<string, OptValue>

  /** A token starting with `--`. */
  predicate IsOption(a: string) {
    |a| >= 2 && a[..2] == "--"
  }

  function KeyOf(a: string): string
    requires IsOption(a)
  {
    a[2..]
  }

  /** The value the option token at `i` takes: the next token, unless there is
      none, it is empty (JavaScript's `!next`) or it is itself an option. */
  function ValueAt(args: seq<string>, i: nat): OptValue
    requires i < |args|
  {
    if i + 1 < |args| && args[i + 1] != "" && !IsOption(args[i + 1]) then Text(args[i + 1]) else Flag
  }

  /** The parsing loop from the current position, with the options seen so
      far: a key once set is never removed, and a key that no remaining token
      names keeps the value it had. */
  function ParseFrom(args: seq<string>, opt: Options): (r: Options)
    ensures opt.Keys <= r.Keys
    ensures forall k | k in opt && (forall i | 0 <= i < |args| :: !Names(args, i, k)) :: r[k] == opt[k]
    decreases |args|
  {
    if |args| == 0 then opt
    else if IsOption(args[0]) then
      var v := ValueAt(args, 0);
      var k := KeyOf(args[0]);
      assert Names(args, 0, k);
      if v.Text? then
        assert forall k', i | 0 <= i < |args[2..]| && Names(args[2..], i, k') :: Names(args, i + 2, k');
        ParseFrom(args[2..], opt[k := v])
      else
        assert forall k', i | 0 <= i < |args[1..]| && Names(args[1..], i, k') :: Names(args, i + 1, k');
        ParseFrom(args[1..], opt[k := Flag])
    else
      assert forall k', i | 0 <= i < |args[1..]| && Names(args[1..], i, k') :: Names(args, i + 1, k');
      ParseFrom(args[1..], opt)
  }

  /** The options parsed from the command-line tokens: the reference reading
      `Bindings` of them. */
  function ParseArgs(args: seq<string>): (r: Options)
    ensures r == Bindings(args)
  {
    ParseIsBindings(args, map[]);
    assert map[] + Bindings(args) == Bindings(args);
    ParseFrom(args, map[])
  }

  /** Reference reading: every option token binds its key to `ValueAt`, and a
      later binding overrides an earlier one. */
  function Bindings(args: seq<string>): Options {
    if |args| == 0 then map[]
    else (if IsOption(args[0]) then map[KeyOf(args[0]) := ValueAt(args, 0)] else map[]) + Bindings(args[1..])
  }

  /** Token `i` is the option `--k`. */
  predicate Names(args: seq<string>, i: int, k: string) {
    0 <= i < |args| && IsOption(args[i]) && KeyOf(args[i]) == k
  }

  /** The loop computes the reference reading: skipping the consumed value
      token loses nothing, since a value token is never an option. */
  lemma {:induction false} ParseIsBindings(args: seq<string>, opt: Options)
    ensures ParseFrom(args, opt) == opt + Bindings(args)
    decreases |args|
  {
    if |args| > 0 {
      if IsOption(args[0]) {
        var k := KeyOf(args[0]);
        var v := ValueAt(args, 0);
        assert Bindings(args) == map[k := v] + Bindings(args[1..]);
        if v.Text? {
          ParseIsBindings(args[2..], opt[k := v]);
          BindingsSkip(args[1..]);
          assert args[1..][1..] == args[2..];
          UpdateUnion(opt, k, v, Bindings(args[2..]));
        } else {
          ParseIsBindings(args[1..], opt[k := Flag]);
          UpdateUnion(opt, k, Flag, Bindings(args[1..]));
        }
      } else {
        ParseIsBindings(args[1..], opt);
        BindingsSkip(args);
      }
    }
  }

  /** A token that is not an option binds nothing. */
  lemma BindingsSkip(args: seq<string>)
    requires |args| > 0 && !IsOption(args[0])
    ensures Bindings(args) == Bindings(args[1..])
  {
  }

  lemma UpdateUnion(opt: Options, k: string, v: OptValue, b: Options)
    ensures opt[k := v] + b == opt + (map[k := v] + b)
  {
  }

  lemma {:induction false} BindingsKeys(args: seq<string>, k: string)
    ensures k in Bindings(args) <==> exists i :: Names(args, i, k)
  {
    if |args| > 0 {
      BindingsKeys(args[1..], k);
      var head: Options := if IsOption(args[0]) then map[KeyOf(args[0]) := ValueAt(args, 0)] else map[];
      assert Bindings(args) == head + Bindings(args[1..]);
      assert k in head <==> Names(args, 0, k);
      if exists i :: Names(args[1..], i, k) {
        var i :| Names(args[1..], i, k);
        assert Names(args, i + 1, k);
      }
      if exists i :: Names(args, i, k) {
        var i :| Names(args, i, k);
        if i > 0 {
          assert Names(args[1..], i - 1, k);
        }
      }
    }
  }

  lemma {:induction false} BindingsLast(args: seq<string>, i: nat, k: string)
    requires Names(args, i, k)
    requires forall j | i < j < |args| :: !Names(args, j, k)
    ensures k in Bindings(args) && Bindings(args)[k] == ValueAt(args, i)
  {
    if i == 0 {
      BindingsKeys(args[1..], k);
      if exists j :: Names(args[1..], j, k) {
        var j :| Names(args[1..], j, k);
        assert Names(args, j + 1, k);
      }
    } else {
      forall j | i - 1 < j < |args[1..]| ensures !Names(args[1..], j, k) {
        assert !Names(args, j + 1, k);
      }
      BindingsLast(args[1..], i - 1, k);
      assert ValueAt(args[1..], i - 1) == ValueAt(args, i);
    }
  }

  /** The parsed keys are exactly the keys of the `--` tokens; stray tokens
      that are not option values add nothing. */
  lemma ParseKeys(args: seq<string>, k: string)
    ensures k in ParseArgs(args) <==> exists i :: Names(args, i, k)
  {
    BindingsKeys(args, k);
  }

  /** The last `--k` token decides `k`: it takes the following token when that
      is a non-empty non-option, and `true` otherwise. */
  lemma ParseLastWins(args: seq<string>, i: nat, k: string)
    requires Names(args, i, k)
    requires forall j | i < j < |args| :: !Names(args, j, k)
    ensures k in ParseArgs(args)
    ensures ParseArgs(args)[k] == ValueAt(args, i)
  {
    BindingsLast(args, i, k);
  }

  /** The default of `--sets`. */
  const DefaultSets := "basic,proverb,tech,code,pangram,number,symbols"

  /** `String(opt.sets ?? default)`: a bare `--sets` flag is the text "true". */
  function SetsText(opt: Options): string {
    if "sets" !in opt then DefaultSets
    else match opt["sets"]
      case Flag => "true"
      case Text(s) => s
  }

  /** The `--sets` text on the command line: the default when no `--sets`
      token is given; otherwise what the last one takes, the word "true"
      when it takes no value. */
  lemma SetsOption(args: seq<string>)
    ensures (forall i :: !Names(args, i, "sets")) ==> SetsText(ParseArgs(args)) == DefaultSets
    ensures forall i | Names(args, i, "sets") && (forall j | i < j < |args| :: !Names(args, j, "sets")) ::
      SetsText(ParseArgs(args)) == (if ValueAt(args, i).Text? then ValueAt(args, i).text else "true")
  {
    ParseKeys(args, "sets");
    forall i | Names(args, i, "sets") && (forall j | i < j < |args| :: !Names(args, j, "sets"))
      ensures SetsText(ParseArgs(args)) == (if ValueAt(args, i).Text? then ValueAt(args, i).text else "true")
    {
      ParseLastWins(args, i, "sets");
    }
  }

  /** Joins pieces with a separator. */
  function Join(ps: seq<string>, sep: char): string
    requires |ps| >= 1
  {
    if |ps| == 1 then ps[0] else ps[0] + [sep] + Join(ps[1..], sep)
  }

  /** `split(sep)`: the maximal separator-free pieces, which join back to `s`. */
  function Split(s: string, sep: char): (r: seq<string>)
    ensures |r| >= 1
    ensures forall p | p in r :: sep !in p
    ensures Join(r, sep) == s
  {
    if |s| == 0 then [""]
    else if s[0] == sep then
      var rest := Split(s[1..], sep);
      assert s == [sep] + s[1..];
      [""] + rest
    else
      var rest := Split(s[1..], sep);
      var r := [[s[0]] + rest[0]] + rest[1..];
      assert r[1..] == rest[1..];
      assert forall p | p in r :: p == r[0] || p in rest;
      assert s == [s[0]] + s[1..];
      r
  }

  /** Splitting a join of separator-free pieces gives the pieces back. */
  lemma {:induction false} SplitJoin(ps: seq<string>, sep: char)
    requires |ps| >= 1
    requires forall p | p in ps :: sep !in p
    ensures Split(Join(ps, sep), sep) == ps
    decreases |ps|, |ps[0]|
  {
    if |ps[0]| == 0 {
      if |ps| > 1 {
        assert Join(ps, sep) == [sep] + Join(ps[1..], sep);
        SplitJoin(ps[1..], sep);
        assert [""] + ps[1..] == ps;
      }
    } else {
      var c := ps[0][0];
      assert c in ps[0];
      var ps' := [ps[0][1..]] + ps[1..];
      assert ps'[1..] == ps[1..];
      assert forall p | p in ps' :: sep !in p by {
        forall p | p in ps' ensures sep !in p {
          if p == ps'[0] {
            assert forall x | x in ps[0][1..] :: x in ps[0];
          } else {
            assert p in ps[1..];
          }
        }
      }
      SplitJoin(ps', sep);
      JoinHead(ps, sep);
      var j := Join(ps, sep);
      assert j[1..] == Join(ps', sep);
      assert ps[0] == [c] + ps'[0];
      assert ps == [[c] + ps'[0]] + ps'[1..];
    }
  }

  /** Moving the first character of the first piece out of a join. */
  lemma JoinHead(ps: seq<string>, sep: char)
    requires |ps| >= 1 && |ps[0]| > 0
    ensures Join(ps, sep) == [ps[0][0]] + Join([ps[0][1..]] + ps[1..], sep)
  {
  }

  /** `.map(s => s.trim())`. */
  function TrimAll(ps: seq<string>): (r: seq<string>)
    ensures |r| == |ps|
    ensures forall i | 0 <= i < |ps| :: r[i] == TrimChars(ps[i])
  {
    seq(|ps|, i requires 0 <= i < |ps| => TrimChars(ps[i]))
  }

  /** `.filter(Boolean)` on strings: the non-empty ones, in order. */
  function NonEmpty(ps: seq<string>): (r: seq<string>)
    ensures forall e | e in r :: |e| > 0 && e in ps
    ensures forall p | p in ps && |p| > 0 :: p in r
  {
    if |ps| == 0 then []
    else
      var rest := NonEmpty(ps[1..]);
      assert forall p | p in ps :: p == ps[0] || p in ps[1..];
      if |ps[0]| > 0 then [ps[0]] + rest else rest
  }

  /** A trimmed string is its own trim and uses only characters of the original. */
  lemma TrimmedPiece(p: string)
    ensures TrimChars(TrimChars(p)) == TrimChars(p)
    ensures forall x | x in TrimChars(p) :: x in p
  {
  }

  /** Trimming separator-free pieces and keeping the non-empty ones yields
      trimmed, separator-free entries. */
  lemma CleanEntries(pieces: seq<string>, sep: char)
    requires forall p | p in pieces :: sep !in p
    ensures forall e | e in NonEmpty(TrimAll(pieces)) :: TrimChars(e) == e && sep !in e
  {
    var trimmed := TrimAll(pieces);
    forall e | e in NonEmpty(trimmed) ensures TrimChars(e) == e && sep !in e {
      var i :| 0 <= i < |trimmed| && trimmed[i] == e;
      TrimmedPiece(pieces[i]);
      assert pieces[i] in pieces;
    }
  }

  /** No piece with a non-blank trim is filtered away. */
  lemma NoPieceLost(pieces: seq<string>)
    ensures forall p | p in pieces && |TrimChars(p)| > 0 :: TrimChars(p) in NonEmpty(TrimAll(pieces))
  {
  }

  /** `SETS`: the comma-separated `--sets` entries, trimmed, with empty ones
      dropped. Every entry is non-empty, is its own trim and holds no comma,
      and every piece with a non-blank trim is listed. */
  function Sets(opt: Options): (r: seq<string>)
    ensures forall e | e in r :: |e| > 0 && TrimChars(e) == e && ',' !in e
    ensures forall p | p in Split(SetsText(opt), ',') && |TrimChars(p)| > 0 :: TrimChars(p) in r
    ensures forall e | e in r :: e in TrimAll(Split(SetsText(opt), ','))
  {
    var pieces := Split(SetsText(opt), ',');
    var r := NonEmpty(TrimAll(pieces));
    CleanEntries(pieces, ',');
    NoPieceLost(pieces);
    r
  }
}
