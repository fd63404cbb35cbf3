/** Addresses as text and as segments (navigation.ts, `segments` and the regular expressions of `locate`). */
module Paths {

  /** `text.split(sep)`. */
  function Split(sep: char, text: string): (parts: seq<string>)
    ensures |parts| >= 1
  {
    if text == "" then [""]
    else
      var rest := Split(sep, text[1..]);
      if text[0] == sep then [""] + rest else [[text[0]] + rest[0]] + rest[1..]
  }

  /** `.filter(Boolean)`. */
  function NonEmpty(parts: seq<string>): seq<string> {
    if parts == [] then [] else (if parts[0] == "" then [] else [parts[0]]) + NonEmpty(parts[1..])
  }

  function Segments(path: string): seq<string> {
    NonEmpty(Split('/', path))
  }

  /** `path.replace(/\/+$/, "")`. */
  function DropSlashes(path: string): string {
    if path != "" && path[|path| - 1] == '/' then DropSlashes(path[..|path| - 1]) else path
  }

  function Join(parts: seq<string>): string {
    if parts == [] then "" else if |parts| == 1 then parts[0] else parts[0] + "/" + Join(parts[1..])
  }

  predicate Has(c: char, text: string) {
    c in text
  }

  lemma {:induction false} SplitAt(sep: char, a: string, b: string)
    ensures Split(sep, a + [sep] + b) == Split(sep, a) + Split(sep, b)
  {
    var text := a + [sep] + b;
    if a == "" {
      assert text[1..] == b;
    } else {
      assert text[1..] == a[1..] + [sep] + b;
      SplitAt(sep, a[1..], b);
    }
  }

  lemma {:induction false} SplitWhole(sep: char, text: string)
    requires !Has(sep, text)
    ensures Split(sep, text) == [text]
  {
    if text != "" {
      assert text[0] in text;
      forall c | c in text[1..] ensures c in text {
      }
      SplitWhole(sep, text[1..]);
      assert [text[0]] + text[1..] == text;
    }
  }

  lemma {:induction false} NonEmptyAppend(a: seq<string>, b: seq<string>)
    ensures NonEmpty(a + b) == NonEmpty(a) + NonEmpty(b)
  {
    if a == [] {
      assert a + b == b;
    } else {
      assert (a + b)[1..] == a[1..] + b;
      NonEmptyAppend(a[1..], b);
    }
  }

  lemma SegmentsAt(a: string, b: string)
    ensures Segments(a + "/" + b) == Segments(a) + Segments(b)
  {
    SplitAt('/', a, b);
    NonEmptyAppend(Split('/', a), Split('/', b));
  }

  lemma SegmentOf(word: string)
    requires word != "" && !Has('/', word)
    ensures Segments(word) == [word]
  {
    SplitWhole('/', word);
    assert NonEmpty([word]) == [word] + NonEmpty([word][1..]);
    assert [word][1..] == [];
  }

  lemma SegmentsOfEmpty()
    ensures Segments("") == [] && Segments("/") == []
  {
  }

  /** A leading slash makes no segment. */
  lemma SegmentsOfRooted(path: string)
    ensures Segments("/" + path) == Segments(path)
  {
  }

  lemma {:induction false} SegmentsOfDropped(path: string)
    ensures Segments(DropSlashes(path)) == Segments(path)
  {
    if path != "" && path[|path| - 1] == '/' {
      var rest := path[..|path| - 1];
      SegmentsOfDropped(rest);
      SegmentsAt(rest, "");
      SegmentsOfEmpty();
      assert path == rest + "/" + "";
    }
  }

  ghost predicate AreSegments(parts: seq<string>) {
    forall i :: 0 <= i < |parts| ==> parts[i] != "" && !Has('/', parts[i])
  }

  lemma {:induction false} SplitHasNoSep(sep: char, text: string)
    ensures forall i :: 0 <= i < |Split(sep, text)| ==> !Has(sep, Split(sep, text)[i])
  {
    if text != "" {
      SplitHasNoSep(sep, text[1..]);
    }
  }

  lemma {:induction false} NonEmptyAreSegments(parts: seq<string>)
    requires forall i :: 0 <= i < |parts| ==> !Has('/', parts[i])
    ensures AreSegments(NonEmpty(parts))
  {
    if parts != [] {
      NonEmptyAreSegments(parts[1..]);
    }
  }

  lemma SegmentsAreSegments(path: string)
    ensures AreSegments(Segments(path))
  {
    SplitHasNoSep('/', path);
    NonEmptyAreSegments(Split('/', path));
  }

  /** Joining segments and taking them apart. */
  lemma {:induction false} SegmentsOfJoin(parts: seq<string>)
    requires AreSegments(parts)
    ensures Segments(Join(parts)) == parts
    ensures parts == [] <==> Join(parts) == ""
    ensures parts != [] ==> Join(parts)[|Join(parts)| - 1] != '/'
  {
    if parts == [] {
      SegmentsOfEmpty();
    } else {
      SegmentOf(parts[0]);
      if |parts| > 1 {
        SegmentsOfJoin(parts[1..]);
        SegmentsAt(parts[0], Join(parts[1..]));
        assert [parts[0]] + parts[1..] == parts;
      } else {
        assert parts == [parts[0]];
        assert parts[0][|parts[0]| - 1] in parts[0];
      }
    }
  }
}
