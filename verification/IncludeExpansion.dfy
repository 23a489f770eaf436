/** Expanding include statements in configuration files (util/util.go, readFileWithIncludes). */
module IncludeExpansion {
  import opened Wrappers

  /** An include statement in a text, from `start` up to `end`, and the file it names,
      resolved against the directory of the including file. */
  datatype Include = Include(start: nat, end: nat, target: string)

  datatype File = File(text: string, includes: seq<Include>)

  type Files = map<string, File>

  /** Statements are found in order and do not overlap. */
  predicate WellFormed(file: File) {
    && (forall i :: 0 <= i < |file.includes| ==> file.includes[i].start <= file.includes[i].end <= |file.text|)
    && (forall i, j :: 0 <= i < j < |file.includes| ==> file.includes[i].end <= file.includes[j].start)
  }

  predicate AllWellFormed(files: Files) {
    forall p :: p in files ==> WellFormed(files[p])
  }

  /** Where the text before the i-th statement begins: behind the statement before it. */
  function Behind(file: File, i: nat): (pos: nat)
    requires WellFormed(file) && i <= |file.includes|
    ensures pos <= |file.text|
    ensures i < |file.includes| ==> pos <= file.includes[i].start
  {
    if i == 0 then 0 else file.includes[i - 1].end
  }

  lemma Deeper(files: Files, above: set<string>, target: string)
    requires target !in above
    ensures target in files ==> |files.Keys - (above + {target})| < |files.Keys - above|
    ensures target !in files ==> files.Keys - (above + {target}) == files.Keys - above
  {
    if target in files {
      assert files.Keys - above == (files.Keys - (above + {target})) + {target};
    }
  }

  /** The text of a file with all statements replaced, from left to right, by the expansions
      of the files they name. There is none if a file is missing or includes itself through
      the files above it. */
  ghost function Expansion(files: Files, path: string, above: set<string>): Option<string>
    requires AllWellFormed(files)
    decreases |files.Keys - above|, if path in files then |files[path].includes| + 2 else 0
  {
    if path in files then Tail(files, path, 0, above) else None
  }

  /** The expansion from behind the i-1st statement on. */
  ghost function Tail(files: Files, path: string, i: nat, above: set<string>): Option<string>
    requires AllWellFormed(files) && path in files && i <= |files[path].includes|
    decreases |files.Keys - above|, |files[path].includes| - i + 1
  {
    var file := files[path];
    var pos := Behind(file, i);
    if i == |file.includes| then Some(file.text[pos..])
    else
      var inner := Nested(files, path, i, above);
      var rest := Tail(files, path, i + 1, above);
      if inner.None? || rest.None? then None
      else Some(file.text[pos..file.includes[i].start] + inner.value + rest.value)
  }

  /** What replaces the i-th statement of a file. */
  ghost function Nested(files: Files, path: string, i: nat, above: set<string>): Option<string>
    requires AllWellFormed(files) && path in files && i < |files[path].includes|
    decreases |files.Keys - above|, |files[path].includes| - i
  {
    var target := files[path].includes[i].target;
    if target in above then None
    else
      Deeper(files, above, target);
      Expansion(files, target, above + {target})
  }

  datatype Error = CannotRead(path: string) | InfiniteLoop(target: string, file: string)

  /** A failure on the way fails the whole expansion. */
  lemma {:induction false} NestedFailure(files: Files, path: string, i: nat, j: nat, above: set<string>)
    requires AllWellFormed(files) && path in files && i <= j < |files[path].includes|
    requires Nested(files, path, j, above).None?
    ensures Tail(files, path, i, above).None?
    decreases j - i
  {
    if i < j {
      NestedFailure(files, path, i + 1, j, above);
    }
  }

  lemma StatementFails(files: Files, path: string, i: nat, above: set<string>)
    requires AllWellFormed(files) && path in files && i < |files[path].includes|
    requires var target := files[path].includes[i].target;
      target in above || Expansion(files, target, above + {target}).None?
    ensures Expansion(files, path, above).None?
  {
    NestedFailure(files, path, 0, i, above);
  }

  /** The text with all statements from the i-th on replaced by their expansions. */
  ghost predicate IsTail(files: Files, path: string, i: nat, above: set<string>, text: string)
    requires AllWellFormed(files) && path in files && i <= |files[path].includes|
  {
    && Tail(files, path, i, above).Some?
    && text == files[path].text[..Behind(files[path], i)] + Tail(files, path, i, above).value
  }

  lemma StatementExpands(files: Files, path: string, i: nat, above: set<string>, text: string, content: string)
    requires AllWellFormed(files) && path in files && i < |files[path].includes|
    requires files[path].includes[i].target !in above && IsTail(files, path, i + 1, above, text)
    requires var target := files[path].includes[i].target; Expansion(files, target, above + {target}) == Some(content)
    ensures var statement := files[path].includes[i];
      && statement.start <= statement.end <= |text|
      && IsTail(files, path, i, above, text[..statement.start] + content + text[statement.end..])
  {
    hide Expansion;
    var file := files[path];
    var rest := Tail(files, path, i + 1, above).value;
    Spliced(file, text, i, content, rest);
    assert Tail(files, path, i, above)
        == Some(file.text[Behind(file, i)..file.includes[i].start] + content + rest);
  }

  lemma TailEnds(files: Files, path: string, above: set<string>)
    requires AllWellFormed(files) && path in files
    ensures IsTail(files, path, |files[path].includes|, above, files[path].text)
  {
    var file := files[path];
    assert file.text == file.text[..Behind(file, |file.includes|)] + file.text[Behind(file, |file.includes|)..];
  }

  lemma TailIsAll(files: Files, path: string, above: set<string>, text: string)
    requires AllWellFormed(files) && path in files && IsTail(files, path, 0, above, text)
    ensures Expansion(files, path, above) == Some(text)
  {
    assert text == Tail(files, path, 0, above).value;
  }

  predicate Includes(files: Files, a: string, b: string) {
    a in files && exists i :: 0 <= i < |files[a].includes| && files[a].includes[i].target == b
  }

  /** A chain of files from `path` on, each including the next. */
  predicate Chain(files: Files, path: string, c: seq<string>) {
    && c != [] && c[0] == path
    && forall i :: 0 <= i < |c| - 1 ==> Includes(files, c[i], c[i + 1])
  }

  ghost predicate Reaches(files: Files, a: string, b: string) {
    exists c :: Chain(files, a, c) && c[|c| - 1] == b
  }

  /** A file that includes itself through others, or directly. */
  ghost predicate ReachesItself(files: Files, a: string) {
    exists b :: Includes(files, a, b) && Reaches(files, b, a)
  }

  lemma ReachesFirst(files: Files, a: string)
    ensures Reaches(files, a, a)
  {
    assert Chain(files, a, [a]);
  }

  lemma ReachesFurther(files: Files, a: string, b: string, d: string)
    requires Includes(files, a, b) && Reaches(files, b, d)
    ensures Reaches(files, a, d)
  {
    var c :| Chain(files, b, c) && c[|c| - 1] == d;
    var longer := [a] + c;
    forall i | 0 <= i < |longer| - 1 ensures Includes(files, longer[i], longer[i + 1]) {
      if i > 0 {
        assert Includes(files, c[i - 1], c[i]);
      }
    }
    assert Chain(files, a, longer) && longer[|longer| - 1] == d;
  }

  lemma {:induction false} ReachesBehind(files: Files, a: string, b: string, d: string)
    requires Reaches(files, a, b) && Includes(files, b, d)
    ensures ReachesItself(files, d) <== d == a
    ensures Reaches(files, a, d)
  {
    var c :| Chain(files, a, c) && c[|c| - 1] == b;
    var longer := c + [d];
    forall i | 0 <= i < |longer| - 1 ensures Includes(files, longer[i], longer[i + 1]) {
      if i < |c| - 1 {
        assert Includes(files, c[i], c[i + 1]);
      }
    }
    assert Chain(files, a, longer);
    assert longer[|longer| - 1] == d;
    var rest := longer[1..];
    forall i | 0 <= i < |rest| - 1 ensures Includes(files, rest[i], rest[i + 1]) {
      assert Includes(files, longer[i + 1], longer[i + 2]);
    }
    assert Chain(files, rest[0], rest) && rest[|rest| - 1] == d;
    assert Includes(files, longer[0], longer[1]);
  }

  /** What an error tells: a file that is reached is missing, or a file that is reached includes
      one that is above the whole expansion or comes back to itself. */
  ghost predicate Explains(files: Files, path: string, above: set<string>, error: Error) {
    match error
    case CannotRead(missing) => missing !in files && Reaches(files, path, missing)
    case InfiniteLoop(target, file) =>
      && Includes(files, file, target) && Reaches(files, path, file)
      && (target in above || ReachesItself(files, target))
  }

  lemma LoopsHere(files: Files, path: string, i: nat, above: set<string>)
    requires path in files && i < |files[path].includes| && files[path].includes[i].target in above
    ensures Explains(files, path, above, InfiniteLoop(files[path].includes[i].target, path))
  {
    ReachesFirst(files, path);
  }

  lemma ExplainsNext(files: Files, path: string, i: nat, above: set<string>, error: Error)
    requires path in files && i < |files[path].includes|
    requires var target := files[path].includes[i].target; Explains(files, target, above + {target}, error)
    ensures Explains(files, path, above, error)
  {
    var target := files[path].includes[i].target;
    assert Includes(files, path, target);
    hide Reaches, Includes, ReachesItself;
    match error {
      case CannotRead(missing) => ReachesFurther(files, path, target, missing);
      case InfiniteLoop(t, file) =>
        ReachesFurther(files, path, target, file);
        ReachesBehind(files, target, file, t);
    }
  }

  /** Replaces statements from the last to the first, so that the positions of those still to
      be replaced stay valid. */
  method ReadFileWithIncludes(files: Files, path: string, above: set<string>) returns (r: Result<string, Error>)
    requires AllWellFormed(files)
    ensures r.Ok? ==> Expansion(files, path, above) == Some(r.value)
    ensures r.Err? ==> Expansion(files, path, above) == None
    ensures r.Err? ==> Explains(files, path, above, r.error)
    decreases |files.Keys - above|, if path in files then 1 else 0
  {
    hide Expansion, Explains, Includes, Reaches, IsTail;
    if path !in files {
      ReachesFirst(files, path);
      MissingFails(files, path, above);
      return Err(CannotRead(path));
    }
    TailEnds(files, path, above);
    var file := files[path];
    var text := file.text;
    var i := |file.includes|;
    while i > 0
      invariant 0 <= i <= |file.includes|
      invariant IsTail(files, path, i, above, text)
    {
      i := i - 1;
      var statement := file.includes[i];
      if statement.target in above {
        StatementFails(files, path, i, above);
        LoopsHere(files, path, i, above);
        return Err(InfiniteLoop(statement.target, path));
      }
      Deeper(files, above, statement.target);
      var content := ReadFileWithIncludes(files, statement.target, above + {statement.target});
      if content.Err? {
        StatementFails(files, path, i, above);
        ExplainsNext(files, path, i, above, content.error);
        return content;
      }
      StatementExpands(files, path, i, above, text, content.value);
      text := text[..statement.start] + content.value + text[statement.end..];
    }
    TailIsAll(files, path, above, text);
    return Ok(text);
  }

  lemma MissingFails(files: Files, path: string, above: set<string>)
    requires AllWellFormed(files) && path !in files
    ensures Expansion(files, path, above) == None
    ensures Reaches(files, path, path) ==> Explains(files, path, above, CannotRead(path))
  {
  }

  lemma Spliced(file: File, text: string, i: nat, content: string, rest: string)
    requires WellFormed(file) && i < |file.includes|
    requires text == file.text[..Behind(file, i + 1)] + rest
    ensures var statement := file.includes[i];
      text[..statement.start] + content + text[statement.end..]
      == file.text[..Behind(file, i)] + (file.text[Behind(file, i)..statement.start] + content + rest)
  {
    var start := file.includes[i].start;
    assert text[file.includes[i].end..] == rest;
    assert text[..start] == file.text[..start];
    assert file.text[..start] == file.text[..Behind(file, i)] + file.text[Behind(file, i)..start];
  }

  // What the expansion consists of

  /** The text from behind the i-1st statement on, with a part in place of each statement. */
  function Filled(file: File, parts: seq<string>, i: nat): string
    requires WellFormed(file) && |parts| == |file.includes| && i <= |parts|
    decreases |parts| - i
  {
    if i == |parts| then file.text[Behind(file, i)..]
    else file.text[Behind(file, i)..file.includes[i].start] + parts[i] + Filled(file, parts, i + 1)
  }

  /** Filling in the statements themselves gives the text: nothing else is replaced, moved or left
      out. */
  lemma {:induction false} FilledWithStatements(file: File, parts: seq<string>, i: nat)
    requires WellFormed(file) && |parts| == |file.includes| && i <= |parts|
    requires forall j :: 0 <= j < |parts| ==> parts[j] == file.text[file.includes[j].start..file.includes[j].end]
    ensures Filled(file, parts, i) == file.text[Behind(file, i)..]
    decreases |parts| - i
  {
    if i < |parts| {
      FilledWithStatements(file, parts, i + 1);
    }
  }

  lemma {:induction false} TailIsFilled(files: Files, path: string, i: nat, above: set<string>, parts: seq<string>)
    requires AllWellFormed(files) && path in files && i <= |parts| == |files[path].includes|
    requires Tail(files, path, i, above).Some?
    requires forall j :: i <= j < |parts| ==> Nested(files, path, j, above) == Some(parts[j])
    ensures Tail(files, path, i, above) == Some(Filled(files[path], parts, i))
    decreases |parts| - i
  {
    if i < |parts| {
      TailIsFilled(files, path, i + 1, above, parts);
    }
  }

  /** An expansion is the text with, in place of each statement, the expansion of the file it names,
      under which that file is not to be included again. */
  lemma ExpansionIsFilled(files: Files, path: string, above: set<string>) returns (parts: seq<string>)
    requires AllWellFormed(files) && Expansion(files, path, above).Some?
    ensures path in files && |parts| == |files[path].includes|
    ensures forall i :: 0 <= i < |parts| ==>
      var target := files[path].includes[i].target;
      target !in above && Expansion(files, target, above + {target}) == Some(parts[i])
    ensures Expansion(files, path, above) == Some(Filled(files[path], parts, 0))
  {
    hide Tail, Filled;
    var n := |files[path].includes|;
    forall i | 0 <= i < n
      ensures Nested(files, path, i, above).Some?
      ensures var target := files[path].includes[i].target;
        target !in above && Expansion(files, target, above + {target}) == Nested(files, path, i, above)
    {
      TailParts(files, path, 0, i, above);
    }
    parts := seq(n, i requires 0 <= i < n => Nested(files, path, i, above).value);
    TailIsFilled(files, path, 0, above, parts);
  }

  // When it succeeds

  predicate NoRepetition(c: seq<string>) {
    forall i, j :: 0 <= i < j < |c| ==> c[i] != c[j]
  }

  predicate Sound(files: Files, above: set<string>, c: seq<string>)
    requires c != []
  {
    && c[|c| - 1] in files
    && (forall i :: 1 <= i < |c| ==> c[i] !in above)
    && NoRepetition(c[1..])
  }

  lemma {:induction false} TailParts(files: Files, path: string, i: nat, j: nat, above: set<string>)
    requires AllWellFormed(files) && path in files && i <= j < |files[path].includes|
    requires Tail(files, path, i, above).Some?
    ensures Nested(files, path, j, above).Some?
  {
    if Nested(files, path, j, above).None? {
      NestedFailure(files, path, i, j, above);
    }
  }

  lemma {:induction false} ChainsAreSound(files: Files, path: string, above: set<string>, c: seq<string>)
    requires AllWellFormed(files) && Expansion(files, path, above).Some? && Chain(files, path, c)
    ensures Sound(files, above, c)
    decreases |c|
  {
    if |c| > 1 {
      assert Includes(files, c[0], c[1]);
      var j :| 0 <= j < |files[path].includes| && files[path].includes[j].target == c[1];
      TailParts(files, path, 0, j, above);
      var rest := c[1..];
      ChainsAreSound(files, c[1], above + {c[1]}, rest);
      assert forall i :: 1 <= i < |rest| ==> rest[i] == c[i + 1] == rest[1..][i - 1];
    }
  }

  lemma {:induction false} FirstNestedFailure(files: Files, path: string, i: nat, above: set<string>) returns (j: nat)
    requires AllWellFormed(files) && path in files && i <= |files[path].includes|
    requires Tail(files, path, i, above).None?
    ensures i <= j < |files[path].includes| && Nested(files, path, j, above).None?
    decreases |files[path].includes| - i
  {
    if Nested(files, path, i, above).None? {
      j := i;
    } else {
      j := FirstNestedFailure(files, path, i + 1, above);
    }
  }

  lemma {:induction false} UnsoundChain(files: Files, path: string, above: set<string>) returns (c: seq<string>)
    requires AllWellFormed(files) && Expansion(files, path, above).None?
    ensures Chain(files, path, c) && !Sound(files, above, c)
    decreases |files.Keys - above|, if path in files then 1 else 0
  {
    if path !in files {
      c := [path];
    } else {
      var j := FirstNestedFailure(files, path, 0, above);
      var target := files[path].includes[j].target;
      if target in above {
        c := [path, target];
      } else {
        Deeper(files, above, target);
        var rest := UnsoundChain(files, target, above + {target});
        c := [path] + rest;
        UnsoundExtension(files, path, target, above, rest);
      }
    }
  }

  lemma UnsoundExtension(files: Files, path: string, target: string, above: set<string>, rest: seq<string>)
    requires rest != [] && rest[0] == target && !Sound(files, above + {target}, rest)
    ensures !Sound(files, above, [path] + rest)
  {
    var c := [path] + rest;
    assert c[1..] == rest;
    if Sound(files, above, c) {
      assert c[|c| - 1] == rest[|rest| - 1];
      forall i | 1 <= i < |rest| ensures rest[i] !in above + {target} {
        assert c[i + 1] == rest[i];
        assert rest[0] != rest[i];
      }
    }
  }

  lemma RepetitionAt(d: seq<string>, j: nat)
    requires 0 < j < |d| - 1 && d[1] == d[j + 1]
    ensures !NoRepetition(d[1..])
  {
    assert d[1..][0] == d[1] && d[1..][j] == d[j + 1];
  }

  /** Following a chain that comes back to its root one step further repeats that step. */
  lemma GoneRound(files: Files, root: string, c: seq<string>, j: nat) returns (d: seq<string>)
    requires Chain(files, root, c) && 0 < j < |c| && c[j] == c[0]
    ensures Chain(files, root, d) && !NoRepetition(d[1..])
  {
    d := c[..j + 1] + [c[1]];
    assert Includes(files, c[0], c[1]);
    forall k | 0 <= k < |d| - 1 ensures Includes(files, d[k], d[k + 1]) {
      if k < j {
        assert Includes(files, c[k], c[k + 1]);
      }
    }
    RepetitionAt(d, j);
  }

  /** If no chain meets a file twice after its root, none meets the root itself again. */
  lemma RootRepetition(files: Files, root: string, c: seq<string>)
    requires Chain(files, root, c)
    requires forall d :: Chain(files, root, d) ==> NoRepetition(d[1..])
    ensures NoRepetition(c)
  {
    forall i, j | 0 <= i < j < |c| ensures c[i] != c[j] {
      if i > 0 {
        assert c[1..][i - 1] != c[1..][j - 1];
      } else if c[j] == c[0] {
        var d := GoneRound(files, root, c, j);
      }
    }
  }

  /** Reading a file with all its includes succeeds exactly when every file that is reached
      exists and no file is reached from itself. */
  lemma SucceedsWithoutCycles(files: Files, root: string)
    requires AllWellFormed(files)
    ensures Expansion(files, root, {}).Some?
       <==> forall c :: Chain(files, root, c) ==> c[|c| - 1] in files && NoRepetition(c)
  {
    hide Expansion, Chain, NoRepetition;
    if Expansion(files, root, {}).Some? {
      forall c | Chain(files, root, c) ensures c != [] && c[|c| - 1] in files && NoRepetition(c[1..]) {
        ChainIsNonempty(files, root, c);
        ChainsAreSound(files, root, {}, c);
      }
      forall c | Chain(files, root, c) ensures NoRepetition(c) {
        RootRepetition(files, root, c);
      }
    } else {
      var c := UnsoundChain(files, root, {});
      ChainIsNonempty(files, root, c);
      SuffixRepetition(c);
    }
  }

  lemma ChainIsNonempty(files: Files, root: string, c: seq<string>)
    requires Chain(files, root, c)
    ensures c != []
  {
  }

  lemma SuffixRepetition(c: seq<string>)
    requires c != []
    ensures NoRepetition(c) ==> NoRepetition(c[1..])
  {
  }
}
