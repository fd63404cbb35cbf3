/** Naming the generated client's methods (_generate.py, `render` and `_method_name`). */
module ClientNames {
  import opened Common

  /** The characters and cases of Python's `\w`, `strip("_")` and `lower`. */
  datatype Letters = Letters(isWord: char -> bool, lower: string -> string)

  datatype Operation = Operation(path: string, verb: string, operationId: string)

  /** `re.sub(r"\W", "_", text)`. */
  function Cleaned(letters: Letters, text: string): string {
    seq(|text|, i requires 0 <= i < |text| => if letters.isWord(text[i]) then text[i] else '_')
  }

  function StripLeft(text: string): string {
    if text != "" && text[0] == '_' then StripLeft(text[1..]) else text
  }

  function StripRight(text: string): string {
    if text != "" && text[|text| - 1] == '_' then StripRight(text[..|text| - 1]) else text
  }

  function Suffix(letters: Letters, path: string, verb: string): string {
    Cleaned(letters, path) + "_" + verb
  }

  predicate EndsWith(text: string, suffix: string) {
    |suffix| <= |text| && text[|text| - |suffix|..] == suffix
  }

  function Unsuffixed(text: string, suffix: string): string {
    if EndsWith(text, suffix) then text[..|text| - |suffix|] else text
  }

  function MethodName(letters: Letters, op: Operation): string {
    var id := if op.operationId == "" then op.verb + "_" + op.path else op.operationId;
    letters.lower(StripRight(StripLeft(Cleaned(letters, Unsuffixed(id, Suffix(letters, op.path, op.verb))))))
  }

  // ---------------------------------------------------------------- numbering

  function Digit(n: nat): char
    requires n < 10
  {
    "0123456789"[n]
  }

  function Decimal(n: nat): (text: string)
    ensures text != ""
  {
    if n < 10 then [Digit(n)] else Decimal(n / 10) + [Digit(n % 10)]
  }

  lemma DigitsDiffer(a: nat, b: nat)
    requires a < 10 && b < 10 && Digit(a) == Digit(b)
    ensures a == b
  {
  }

  /** A number is read back from its decimal digits. */
  lemma {:induction false} DecimalsDiffer(a: nat, b: nat)
    requires Decimal(a) == Decimal(b)
    ensures a == b
    decreases a
  {
    var da, db := Decimal(a), Decimal(b);
    assert da[|da| - 1] == Digit(a % 10) && db[|db| - 1] == Digit(b % 10);
    DigitsDiffer(a % 10, b % 10);
    assert (a < 10 <==> |da| == 1) && (b < 10 <==> |db| == 1);
    if a >= 10 && b >= 10 {
      assert da[..|da| - 1] == Decimal(a / 10) && db[..|db| - 1] == Decimal(b / 10);
      DecimalsDiffer(a / 10, b / 10);
    }
  }

  function Numbered(base: string, counter: nat): string {
    base + "_" + Decimal(counter)
  }

  lemma NumberedDiffer(base: string, a: nat, b: nat)
    requires Numbered(base, a) == Numbered(base, b)
    ensures a == b
  {
    assert Numbered(base, a)[|base + "_"|..] == Decimal(a);
    assert Numbered(base, b)[|base + "_"|..] == Decimal(b);
    DecimalsDiffer(a, b);
  }

  /** `base`, or `base` with the least number from 2 that is free. */
  ghost predicate IsFirstFree(used: set<string>, base: string, name: string) {
    && name !in used
    && (name == base
        || (base in used && exists k: nat :: (k >= 2 && name == Numbered(base, k)
              && forall j :: 2 <= j < k ==> Numbered(base, j) in used)))
  }

  function Tried(base: string, counter: nat): set<string>
    requires counter >= 2
  {
    set k | 2 <= k < counter :: Numbered(base, k)
  }

  lemma {:induction false} TriedCount(base: string, counter: nat)
    requires counter >= 2
    ensures |Tried(base, counter)| == counter - 2
  {
    if counter > 2 {
      TriedCount(base, counter - 1);
      var last := Numbered(base, counter - 1);
      assert Tried(base, counter) == Tried(base, counter - 1) + {last};
      if last in Tried(base, counter - 1) {
        var k :| 2 <= k < counter - 1 && Numbered(base, k) == last;
        NumberedDiffer(base, k, counter - 1);
      }
    } else {
      assert Tried(base, counter) == {};
    }
  }

  /** The loop ends: each turn uses up one of the finitely many names taken. */
  method FreeName(used: set<string>, base: string) returns (name: string)
    ensures IsFirstFree(used, base, name)
  {
    name := base;
    var counter := 2;
    while name in used
      invariant counter >= 2
      invariant if counter == 2 then name == base else base in used && name == Numbered(base, counter - 1)
      invariant forall j :: 2 <= j < counter - 1 ==> Numbered(base, j) in used
      decreases |used| + 3 - counter
    {
      if counter > 2 {
        assert Tried(base, counter) <= used;
        SubsetIsSmaller(Tried(base, counter), used);
        TriedCount(base, counter);
      }
      name := Numbered(base, counter);
      counter := counter + 1;
    }
  }

  // ---------------------------------------------------------------- the client

  /** What the document says of one address: its operation for each method it has. */
  type PathItem = map<string, string>

  const METHODS: seq<string> := ["get", "post", "put", "patch", "delete"]

  predicate IsPublic(path: string) {
    "/api/v1/" <= path
  }

  function OperationsAt(path: string, item: PathItem, methods: seq<string>): seq<Operation> {
    if methods == [] then []
    else
      var last := methods[|methods| - 1];
      OperationsAt(path, item, methods[..|methods| - 1]) +
      (if last in item then [Operation(path, last, item[last])] else [])
  }

  /** Every public operation, by address and then by method. */
  function Operations(paths: seq<string>, document: map<string, PathItem>): seq<Operation>
    requires forall p :: p in paths ==> p in document
  {
    if paths == [] then []
    else
      var last := paths[|paths| - 1];
      assert last in paths;
      Operations(paths[..|paths| - 1], document) +
      (if IsPublic(last) then OperationsAt(last, document[last], METHODS) else [])
  }

  lemma {:induction false} OperationsAtAre(path: string, item: PathItem, methods: seq<string>, op: Operation)
    ensures op in OperationsAt(path, item, methods) <==>
      op.path == path && op.verb in methods && op.verb in item && op.operationId == item[op.verb]
  {
    if methods != [] {
      OperationsAtAre(path, item, methods[..|methods| - 1], op);
      assert methods == methods[..|methods| - 1] + [methods[|methods| - 1]];
    }
  }

  /** The operations are exactly those the document gives, under /api/v1/, for the five methods. */
  lemma {:induction false} OperationsAre(paths: seq<string>, document: map<string, PathItem>, op: Operation)
    requires forall p :: p in paths ==> p in document
    ensures op in Operations(paths, document) <==>
      && op.path in paths && "/api/v1/" <= op.path
      && op.verb in {"get", "post", "put", "patch", "delete"}
      && op.verb in document[op.path] && op.operationId == document[op.path][op.verb]
  {
    if paths != [] {
      var rest, last := paths[..|paths| - 1], paths[|paths| - 1];
      assert last in paths && paths == rest + [last];
      OperationsAre(rest, document, op);
      OperationsAtAre(last, document[last], METHODS, op);
    }
  }

  /** And each of them once. */
  lemma {:induction false} OperationsDiffer(paths: seq<string>, document: map<string, PathItem>)
    requires AllDifferent(paths) && forall p :: p in paths ==> p in document
    ensures AllDifferent(Operations(paths, document))
  {
    if paths != [] {
      var rest, last := paths[..|paths| - 1], paths[|paths| - 1];
      assert last in paths && paths == rest + [last] && last !in rest;
      OperationsDiffer(rest, document);
      MethodsDiffer();
      OperationsAtDiffer(last, document[last], METHODS);
      forall op | op in Operations(rest, document) ensures op !in OperationsAt(last, document[last], METHODS) {
        OperationsAre(rest, document, op);
        OperationsAtAre(last, document[last], METHODS, op);
      }
      DifferentTogether(Operations(rest, document), OperationsAt(last, document[last], METHODS));
    }
  }

  lemma MethodsDiffer()
    ensures AllDifferent(METHODS)
  {
    assert METHODS[0][0] == 'g' && METHODS[1][1] == 'o' && METHODS[2][1] == 'u' && METHODS[3][1] == 'a';
  }

  lemma DifferentTogether(a: seq<Operation>, b: seq<Operation>)
    requires AllDifferent(a) && AllDifferent(b) && forall op :: op in a ==> op !in b
    ensures AllDifferent(a + b)
  {
    forall i, j | 0 <= i < j < |a + b| ensures (a + b)[i] != (a + b)[j] {
      if i < |a| <= j {
        assert a[i] in a && b[j - |a|] in b;
      }
    }
  }

  lemma {:induction false} OperationsAtDiffer(path: string, item: PathItem, methods: seq<string>)
    requires AllDifferent(methods)
    ensures AllDifferent(OperationsAt(path, item, methods))
  {
    if methods != [] {
      var rest, last := methods[..|methods| - 1], methods[|methods| - 1];
      assert methods == rest + [last] && last !in rest;
      OperationsAtDiffer(path, item, rest);
      forall op | op in OperationsAt(path, item, rest) ensures op.verb != last {
        OperationsAtAre(path, item, rest, op);
      }
    }
  }

  /** One name for each operation, in order, each the first free one after those before it. */
  ghost predicate Names(letters: Letters, ops: seq<Operation>, names: seq<string>) {
    && |names| == |ops|
    && forall i :: 0 <= i < |ops| ==> IsFirstFree(SetOf(names[..i]), MethodName(letters, ops[i]), names[i])
  }

  lemma NamesAppend(letters: Letters, ops: seq<Operation>, names: seq<string>, op: Operation, name: string)
    requires Names(letters, ops, names) && IsFirstFree(SetOf(names), MethodName(letters, op), name)
    ensures Names(letters, ops + [op], names + [name])
  {
    forall i | 0 <= i < |ops + [op]|
      ensures IsFirstFree(SetOf((names + [name])[..i]), MethodName(letters, (ops + [op])[i]), (names + [name])[i])
    {
      assert (names + [name])[..i] == if i < |names| then names[..i] else names;
    }
  }

  /** No two operations get one method name, even where a name ends in a number of its own. */
  lemma NamesAreDifferent(letters: Letters, ops: seq<Operation>, names: seq<string>)
    requires Names(letters, ops, names)
    ensures AllDifferent(names)
  {
  }

  method Render(letters: Letters, paths: seq<string>, document: map<string, PathItem>) returns (names: seq<string>)
    requires forall p :: p in paths ==> p in document
    ensures Names(letters, Operations(paths, document), names) && AllDifferent(names)
  {
    names := [];
    for p := 0 to |paths|
      invariant Names(letters, Operations(paths[..p], document), names)
    {
      assert paths[..p + 1][..p] == paths[..p];
      var path := paths[p];
      if IsPublic(path) {
        ghost var before := Operations(paths[..p], document);
        assert before + [] == before;
        for m := 0 to |METHODS|
          invariant Names(letters, before + OperationsAt(path, document[path], METHODS[..m]), names)
        {
          assert METHODS[..m + 1][..m] == METHODS[..m];
          var verb := METHODS[m];
          ghost var done := before + OperationsAt(path, document[path], METHODS[..m]);
          if verb in document[path] {
            var op := Operation(path, verb, document[path][verb]);
            var name := FreeName(SetOf(names), MethodName(letters, op));
            NamesAppend(letters, done, names, op, name);
            assert done + [op] == before + OperationsAt(path, document[path], METHODS[..m + 1]);
            names := names + [name];
          } else {
            assert done == before + OperationsAt(path, document[path], METHODS[..m + 1]);
          }
        }
        assert METHODS[..|METHODS|] == METHODS;
      } else {
        assert Operations(paths[..p], document) + [] == Operations(paths[..p], document);
      }
    }
    assert paths[..|paths|] == paths;
    NamesAreDifferent(letters, Operations(paths, document), names);
  }

  /** The same text with "_" for whatever is not a word character. */
  ghost predicate IsCleaned(letters: Letters, text: string, cleaned: string) {
    && |cleaned| == |text|
    && forall k :: 0 <= k < |text| ==> cleaned[k] == if letters.isWord(text[k]) then text[k] else '_'
  }

  lemma CleanedIs(letters: Letters, text: string, cleaned: string)
    requires IsCleaned(letters, text, cleaned)
    ensures Cleaned(letters, text) == cleaned
  {
  }

  /** Stripping takes off the underscores at both ends, and nothing else. */
  lemma {:induction false} StripRightIsExact(text: string)
    ensures StripRight(text) <= text
    ensures forall k :: |StripRight(text)| <= k < |text| ==> text[k] == '_'
    ensures StripRight(text) != "" ==> StripRight(text)[|StripRight(text)| - 1] != '_'
  {
    if text != "" && text[|text| - 1] == '_' {
      StripRightIsExact(text[..|text| - 1]);
    }
  }

  lemma {:induction false} StripLeftIsExact(text: string) returns (k: nat)
    ensures k <= |text| && StripLeft(text) == text[k..]
    ensures forall j :: 0 <= j < k ==> text[j] == '_'
    ensures k < |text| ==> text[k] != '_'
  {
    if text != "" && text[0] == '_' {
      var n := StripLeftIsExact(text[1..]);
      k := n + 1;
      assert text[1..][n..] == text[k..];
      assert forall j :: 0 < j < |text| ==> text[j] == text[1..][j - 1];
    } else {
      k := 0;
      assert text[0..] == text;
    }
  }

  /** A method is named after the route's own function: an operation id made of the function's name,
      the cleaned address and the method gives that name back, in lower case. */
  lemma NamedAfterItsFunction(letters: Letters, functionName: string, path: string, cleaned: string, verb: string)
    requires functionName != "" && functionName[0] != '_' && functionName[|functionName| - 1] != '_'
    requires forall c :: c in functionName ==> letters.isWord(c)
    requires IsCleaned(letters, path, cleaned)
    ensures MethodName(letters, Operation(path, verb, functionName + cleaned + "_" + verb))
         == letters.lower(functionName)
  {
    CleanedIs(letters, path, cleaned);
    CleanedIs(letters, functionName, functionName);
    var suffix := cleaned + "_" + verb;
    assert functionName + cleaned + "_" + verb == functionName + suffix;
    assert Unsuffixed(functionName + suffix, suffix) == functionName;
  }

  /** An operation without an id is named after its method and its address. */
  lemma NamedAfterItsAddress(letters: Letters, path: string, cleaned: string, verb: string)
    requires verb != "" && verb[0] != '_' && forall c :: c in verb ==> letters.isWord(c)
    requires path != "" && !letters.isWord(path[0]) && letters.isWord('_') && IsCleaned(letters, path, cleaned)
    ensures MethodName(letters, Operation(path, verb, "")) == letters.lower(StripRight(verb + "_" + cleaned))
  {
    var id, suffix := verb + "_" + path, cleaned + "_" + verb;
    CleanedIs(letters, path, cleaned);
    assert |id| == |suffix| && id[0] != suffix[0];
    assert id[|id| - |suffix|..] == id;
    CleanedIs(letters, id, verb + "_" + cleaned);
  }

  /** An operation id made of a function's name, its address and its method gives the function's name back. */
  lemma MethodNameIsFunctionName(letters: Letters, functionName: string, path: string, verb: string)
    requires functionName != ""
    ensures MethodName(letters, Operation(path, verb, functionName + Suffix(letters, path, verb)))
         == letters.lower(StripRight(StripLeft(Cleaned(letters, functionName))))
  {
  }
}
