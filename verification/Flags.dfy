/** The report command line's flags. */
module Flags {
  // The parser is one loop over the arguments that looks one argument ahead, so that a flag's value may stand in the
  // same argument, in the next one, or be missing; what is written in any mixture of the three is recovered.

  import opened Text

  type Record = map<string, string>

  /** `o[k] = v` on a plain object: assigning a string to `__proto__` is ignored by its setter. */
  function SetProperty(o: Record, k: string, v: string): Record {
    if k == "__proto__" then o else o[k := v]
  }

  /** The flags of `argv` from position `i` on, added to `o`. */
  function ParseFrom(argv: seq<string>, i: nat, o: Record): Record
    requires i <= |argv|
    decreases |argv| - i
  {
    if i == |argv| then o
    else if !StartsWith(argv[i], "--") then ParseFrom(argv, i + 1, o)
    else
      var k := argv[i][2..];
      match IndexOf(k, '=')
      case Some(eq) => ParseFrom(argv, i + 1, SetProperty(o, k[..eq], k[eq + 1..]))
      case None =>
        if i + 1 < |argv| && !StartsWith(argv[i + 1], "--") then ParseFrom(argv, i + 2, SetProperty(o, k, argv[i + 1]))
        else ParseFrom(argv, i + 1, SetProperty(o, k, "true"))
  }

  method ParseFlags(argv: seq<string>) returns (o: Record)
    ensures o == ParseFrom(argv, 0, map[])
  {
    o := map[];
    var i := 0;
    while i < |argv|
      invariant i <= |argv|
      invariant ParseFrom(argv, i, o) == ParseFrom(argv, 0, map[])
    {
      var a := argv[i];
      if StartsWith(a, "--") {
        var k := a[2..];
        match IndexOf(k, '=') {
          case Some(eq) =>
            o := SetProperty(o, k[..eq], k[eq + 1..]);
          case None =>
            if i + 1 < |argv| && !StartsWith(argv[i + 1], "--") {
              i := i + 1;
              o := SetProperty(o, k, argv[i]);
            } else {
              o := SetProperty(o, k, "true");
            }
        }
      }
      i := i + 1;
    }
  }

  // ── Renderings ──

  /** One thing a caller can write: `--k=v`, `--k v`, `--k` for "true", or a stray word. */
  datatype Item =
    | Joined(key: string, val: string)
    | Spaced(key: string, val: string)
    | Bare(key: string)
    | Stray(word: string)

  /** Keys have no `=`; a value after a space, and a stray word, do not look like a flag. */
  predicate Writable(it: Item) {
    match it
    case Joined(k, _) => '=' !in k
    case Spaced(k, v) => '=' !in k && !StartsWith(v, "--")
    case Bare(k) => '=' !in k
    case Stray(w) => !StartsWith(w, "--")
  }

  /** A bare flag stands before another flag or at the end. */
  predicate WellWritten(items: seq<Item>) {
    forall i :: 0 <= i < |items| ==>
      Writable(items[i]) && (items[i].Bare? && i + 1 < |items| ==> !items[i + 1].Stray?)
  }

  function Words(it: Item): seq<string> {
    match it
    case Joined(k, v) => ["--" + k + "=" + v]
    case Spaced(k, v) => ["--" + k, v]
    case Bare(k) => ["--" + k]
    case Stray(w) => [w]
  }

  function Written(items: seq<Item>): seq<string> {
    if items == [] then [] else Words(items[0]) + Written(items[1..])
  }

  /** What the items mean, the last writing of a key counting. */
  function Meaning(items: seq<Item>, o: Record): Record {
    if items == [] then o
    else match items[0]
      case Joined(k, v) => Meaning(items[1..], o[k := v])
      case Spaced(k, v) => Meaning(items[1..], o[k := v])
      case Bare(k) => Meaning(items[1..], o[k := "true"])
      case Stray(_) => Meaning(items[1..], o)
  }

  /** Parsing only looks ahead, so a prefix already consumed does not matter. */
  lemma {:induction false} ParseSuffix(a: seq<string>, b: seq<string>, i: nat, o: Record)
    requires i <= |b|
    ensures ParseFrom(a + b, |a| + i, o) == ParseFrom(b, i, o)
    decreases |b| - i
  {
    if i < |b| {
      assert (a + b)[|a| + i] == b[i];
      if i + 1 < |b| { assert (a + b)[|a| + (i + 1)] == b[i + 1]; }
      if StartsWith(b[i], "--") {
        var k := b[i][2..];
        match IndexOf(k, '=')
        case Some(eq) => ParseSuffix(a, b, i + 1, SetProperty(o, k[..eq], k[eq + 1..]));
        case None =>
          if i + 1 < |b| && !StartsWith(b[i + 1], "--") {
            ParseSuffix(a, b, i + 2, SetProperty(o, k, b[i + 1]));
          } else {
            ParseSuffix(a, b, i + 1, SetProperty(o, k, "true"));
          }
      } else {
        ParseSuffix(a, b, i + 1, o);
      }
    }
  }

  lemma KeyOf(k: string)
    requires '=' !in k
    ensures StartsWith("--" + k, "--") && ("--" + k)[2..] == k && IndexOf(k, '=') == None
  {
    assert ("--" + k)[..2] == "--";
  }

  lemma JoinedKeyOf(k: string, v: string)
    requires '=' !in k
    ensures var w := "--" + k + "=" + v;
            StartsWith(w, "--") && IndexOf(w[2..], '=') == Some(|k|) && w[2..][..|k|] == k && w[2..][|k| + 1..] == v
  {
    var w := "--" + k + "=" + v;
    assert w[..2] == "--" && w[2..] == k + "=" + v;
    var t := w[2..];
    assert forall j :: 0 <= j < |k| ==> t[j] == k[j];
    IndexOfUnique(t, '=', |k|);
  }

  /** A key the parser drops. */
  predicate Dropped(items: seq<Item>) {
    exists i :: 0 <= i < |items| && !items[i].Stray? && items[i].key == "__proto__"
  }

  lemma FirstWord(items: seq<Item>)
    requires WellWritten(items) && items != []
    ensures Written(items) != [] && (StartsWith(Written(items)[0], "--") <==> !items[0].Stray?)
  {
    match items[0]
    case Joined(k, v) => JoinedKeyOf(k, v);
    case Spaced(k, _) => KeyOf(k);
    case Bare(k) => KeyOf(k);
    case Stray(_) =>
  }

  /** One item is consumed exactly, and contributes exactly its own flag. */
  lemma ParsesFirst(items: seq<Item>, o: Record)
    requires WellWritten(items) && items != []
    ensures var rest := Written(items[1..]);
            ParseFrom(Written(items), 0, o) == ParseFrom(rest, 0,
              match items[0]
              case Joined(k, v) => SetProperty(o, k, v)
              case Spaced(k, v) => SetProperty(o, k, v)
              case Bare(k) => SetProperty(o, k, "true")
              case Stray(_) => o)
  {
    var rest, all := Written(items[1..]), Written(items);
    assert all == Words(items[0]) + rest;
    match items[0]
    case Joined(k, v) =>
      JoinedKeyOf(k, v);
      ParseSuffix(Words(items[0]), rest, 0, SetProperty(o, k, v));
    case Spaced(k, v) =>
      KeyOf(k);
      ParseSuffix(Words(items[0]), rest, 0, SetProperty(o, k, v));
    case Bare(k) =>
      KeyOf(k);
      if |items| > 1 {
        assert items[1..][0] == items[1] && WellWritten(items[1..]);
        FirstWord(items[1..]);
        assert all[1] == rest[0];
      }
      ParseSuffix(Words(items[0]), rest, 0, SetProperty(o, k, "true"));
    case Stray(_) =>
      ParseSuffix(Words(items[0]), rest, 0, o);
  }

  lemma {:induction false} ParsesBackFrom(items: seq<Item>, o: Record)
    requires WellWritten(items) && !Dropped(items)
    ensures ParseFrom(Written(items), 0, o) == Meaning(items, o)
  {
    if items != [] {
      ParsesFirst(items, o);
      forall i | 0 <= i < |items| - 1 ensures items[1..][i].Stray? || items[1..][i].key != "__proto__" {
        assert items[1..][i] == items[i + 1];
      }
      match items[0]
      case Joined(k, v) => ParsesBackFrom(items[1..], o[k := v]);
      case Spaced(k, v) => ParsesBackFrom(items[1..], o[k := v]);
      case Bare(k) => ParsesBackFrom(items[1..], o[k := "true"]);
      case Stray(_) => ParsesBackFrom(items[1..], o);
    }
  }

  lemma {:induction false} NeverProto(argv: seq<string>, i: nat, o: Record)
    requires i <= |argv| && "__proto__" !in o
    ensures "__proto__" !in ParseFrom(argv, i, o)
    decreases |argv| - i
  {
    if i < |argv| {
      if StartsWith(argv[i], "--") {
        var k := argv[i][2..];
        match IndexOf(k, '=')
        case Some(eq) => NeverProto(argv, i + 1, SetProperty(o, k[..eq], k[eq + 1..]));
        case None =>
          if i + 1 < |argv| && !StartsWith(argv[i + 1], "--") {
            NeverProto(argv, i + 2, SetProperty(o, k, argv[i + 1]));
          } else {
            NeverProto(argv, i + 1, SetProperty(o, k, "true"));
          }
      } else {
        NeverProto(argv, i + 1, o);
      }
    }
  }

  lemma {:induction false} MeaningKeeps(items: seq<Item>, o: Record, key: string)
    requires key in o || exists i :: 0 <= i < |items| && !items[i].Stray? && items[i].key == key
    ensures key in Meaning(items, o)
  {
    if items != [] {
      var rest := items[1..];
      assert forall i :: 0 < i < |items| ==> rest[i - 1] == items[i];
      match items[0]
      case Joined(k, v) => MeaningKeeps(rest, o[k := v], key);
      case Spaced(k, v) => MeaningKeeps(rest, o[k := v], key);
      case Bare(k) => MeaningKeeps(rest, o[k := "true"], key);
      case Stray(_) => MeaningKeeps(rest, o, key);
    }
  }

  /** Any flags, written in any mixture of the three forms, are recovered iff none is called `__proto__`. */
  lemma ParsesBack(items: seq<Item>)
    requires WellWritten(items)
    ensures ParseFrom(Written(items), 0, map[]) == Meaning(items, map[]) <==> !Dropped(items)
  {
    if Dropped(items) {
      MeaningKeeps(items, map[], "__proto__");
      NeverProto(Written(items), 0, map[]);
    } else {
      ParsesBackFrom(items, map[]);
    }
  }
}
