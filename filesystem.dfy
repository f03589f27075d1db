/** A shell transcript of `cd` and `ls` commands (src/q7.rs): the transcript is cut into
    tokens, the tokens are replayed into a directory tree, and the tree answers questions
    about directory sizes. */
module FileSystem {
  import opened Wrappers
  import opened Strings

  /* ---------- Tokens ---------- */

  /** A directory to change into, or one line of an `ls` listing cut at its spaces. */
  datatype Token = DirectoryName(name: string) | ListDirectoryLine(chunks: seq<string>)

  /** What a command line does with one of its space-separated chunks. */
  datatype ChunkRole = Skipped | Named | Panics

  /** The chunk tests of a `$` line, in the order the source makes them: a chunk that
      starts with `c` or `l` has its second character read, and an empty chunk its first. */
  function CommandChunkRole(chunk: string): (r: ChunkRole)
    ensures r == Panics <==> chunk == "" || chunk == "c" || chunk == "l"
    ensures r == Skipped <==> chunk == "$" || chunk == "cd" || chunk == "ls"
  {
    if |chunk| == 0 then Panics
    else if chunk[0] == 'c' && |chunk| < 2 then Panics
    else if chunk[0] == 'c' && chunk[1] == 'd' && |chunk| == 2 then Skipped
    else if chunk[0] == 'l' && |chunk| < 2 then Panics
    else if chunk[0] == 'l' && chunk[1] == 's' && |chunk| == 2 then Skipped
    else if chunk[0] != '$' || |chunk| > 1 then Named
    else Skipped
  }

  /** `tokens` after the chunks of a command line have been handled in order; `None`
      when a chunk makes the source panic. */
  function CommandInto(tokens: seq<Token>, chunks: seq<string>): (r: Option<seq<Token>>)
    ensures r.Some? <==> forall i :: 0 <= i < |chunks| ==> CommandChunkRole(chunks[i]) != Panics
    ensures r.Some? ==> |tokens| <= |r.value| <= |tokens| + |chunks|
    ensures r.Some? ==> forall k :: 0 <= k < |tokens| ==> r.value[k] == tokens[k]
    ensures r.Some? ==> forall k :: |tokens| <= k < |r.value| ==>
      r.value[k].DirectoryName? && r.value[k].name in chunks && CommandChunkRole(r.value[k].name) == Named
    decreases |chunks|
  {
    if chunks == [] then Some(tokens)
    else
      var last := chunks[|chunks| - 1];
      match CommandInto(tokens, chunks[..|chunks| - 1])
      case None => None
      case Some(t) =>
        match CommandChunkRole(last)
        case Panics => None
        case Skipped => Some(t)
        case Named => Some(t + [DirectoryName(last)])
  }

  /** `tokens` after one line: a `$` line adds a name per `Named` chunk, any other line
      adds one listing token. An empty line makes the source panic. */
  function LineInto(tokens: seq<Token>, line: string): Option<seq<Token>> {
    if |line| == 0 then None
    else if line[0] == '$' then CommandInto(tokens, Split(line, ' '))
    else Some(tokens + [ListDirectoryLine(Split(line, ' '))])
  }

  /** The token stream of a transcript, `None` when a line makes the source panic. */
  function Tokenize(lines: seq<string>): Option<seq<Token>>
    decreases |lines|
  {
    if lines == [] then Some([])
    else
      match Tokenize(lines[..|lines| - 1])
      case None => None
      case Some(t) => LineInto(t, lines[|lines| - 1])
  }

  /** Once a line has made the tokenizer panic, later lines change nothing. */
  lemma {:induction false} TokenizeStaysFailed(lines: seq<string>, i: nat)
    requires i <= |lines| && Tokenize(lines[..i]) == None
    ensures Tokenize(lines) == None
    decreases |lines| - i
  {
    if i < |lines| {
      assert lines[..i + 1][..i] == lines[..i];
      TokenizeStaysFailed(lines, i + 1);
    } else {
      assert lines[..i] == lines;
    }
  }

  lemma {:induction false} CommandStaysFailed(tokens: seq<Token>, chunks: seq<string>, k: nat)
    requires k <= |chunks| && CommandInto(tokens, chunks[..k]) == None
    ensures CommandInto(tokens, chunks) == None
    decreases |chunks| - k
  {
    if k < |chunks| {
      assert chunks[..k + 1][..k] == chunks[..k];
      CommandStaysFailed(tokens, chunks, k + 1);
    } else {
      assert chunks[..k] == chunks;
    }
  }

  /** A piece without the separator is split into itself. */
  lemma SplitWhole(s: string, sep: char)
    requires sep !in s
    ensures Split(s, sep) == [s]
  {
  }

  /** Two words with one space between them split into the two words. */
  lemma SplitTwo(a: string, b: string)
    requires ' ' !in a && ' ' !in b
    ensures Split(a + " " + b, ' ') == [a, b]
  {
    SplitAppend(a, b, ' ');
    SplitWhole(a, ' ');
    SplitWhole(b, ' ');
  }

  /** `$ ls` adds no token. */
  lemma LsAddsNothing(tokens: seq<Token>)
    ensures LineInto(tokens, "$ ls") == Some(tokens)
  {
    SplitTwo("$", "ls");
    assert "$ ls" == "$" + " " + "ls";
    var chunks := ["$", "ls"];
    assert chunks[..1] == ["$"] && ["$"][..0] == [];
    assert CommandInto(tokens, chunks[..1]) == Some(tokens);
  }

  lemma SplitCd(x: string)
    requires ' ' !in x
    ensures Split("$ cd " + x, ' ') == ["$", "cd", x]
  {
    var rest := "cd" + " " + x;
    SplitTwo("cd", x);
    SplitAppend("$", rest, ' ');
    SplitWhole("$", ' ');
    assert "$ cd " + x == "$" + [' '] + rest;
  }

  /** `$ cd X` adds the one token `DirectoryName(X)` when X is a single word that is
      not itself a command word. */
  lemma CdAddsName(tokens: seq<Token>, x: string)
    requires ' ' !in x && CommandChunkRole(x) == Named
    ensures LineInto(tokens, "$ cd " + x) == Some(tokens + [DirectoryName(x)])
  {
    SplitCd(x);
    var chunks := ["$", "cd", x];
    assert chunks[..2] == ["$", "cd"] && chunks[..2][..1] == ["$"] && ["$"][..0] == [];
    assert CommandInto(tokens, chunks[..2]) == Some(tokens);
  }

  /** A line that is not a command becomes one listing token whose chunks hold no space
      and glue back, with single spaces, into the line. */
  lemma ListingRoundTrip(tokens: seq<Token>, line: string)
    requires |line| > 0 && line[0] != '$'
    ensures var r := LineInto(tokens, line);
      r.Some? && |r.value| == |tokens| + 1 && r.value[..|tokens|] == tokens
      && r.value[|tokens|].ListDirectoryLine?
      && Join(r.value[|tokens|].chunks, ' ') == line
      && forall k :: 0 <= k < |r.value[|tokens|].chunks| ==> ' ' !in r.value[|tokens|].chunks[k]
  {
    JoinSplit(line, ' ');
    SplitPiecesLackSep(line, ' ');
  }

  /** `into_token_stream`: every line in turn, pushing tokens onto one vector. */
  method IntoTokenStream(lines: seq<string>) returns (r: Option<seq<Token>>)
    ensures r == Tokenize(lines)
  {
    var tokens: seq<Token> := [];
    for i := 0 to |lines|
      invariant Tokenize(lines[..i]) == Some(tokens)
    {
      assert lines[..i + 1][..i] == lines[..i];
      var next := PushLineTokens(tokens, lines[i]);
      if next.None? {
        TokenizeStaysFailed(lines, i + 1);
        return None;
      }
      tokens := next.value;
    }
    assert lines[..|lines|] == lines;
    return Some(tokens);
  }

  /** The body of the loop of `into_token_stream` for one line. */
  method PushLineTokens(tokens: seq<Token>, line: string) returns (r: Option<seq<Token>>)
    ensures r == LineInto(tokens, line)
  {
    if |line| == 0 {
      return None;
    }
    var chunks := Split(line, ' ');
    if line[0] == '$' {
      var acc := tokens;
      for k := 0 to |chunks|
        invariant CommandInto(tokens, chunks[..k]) == Some(acc)
      {
        assert chunks[..k + 1][..k] == chunks[..k];
        var chunk := chunks[k];
        if |chunk| == 0 || (chunk[0] == 'c' && |chunk| < 2) || (chunk[0] == 'l' && |chunk| < 2) {
          CommandStaysFailed(tokens, chunks, k + 1);
          return None;
        }
        if chunk[0] == 'c' && chunk[1] == 'd' && |chunk| == 2 {
          continue;
        }
        if chunk[0] == 'l' && chunk[1] == 's' && |chunk| == 2 {
          continue;
        }
        if chunk[0] != '$' || |chunk| > 1 {
          acc := acc + [DirectoryName(chunk)];
        }
      }
      assert chunks[..|chunks|] == chunks;
      return Some(acc);
    } else {
      var chunkVec: seq<string> := [];
      for k := 0 to |chunks|
        invariant chunkVec == chunks[..k]
      {
        chunkVec := chunkVec + [chunks[k]];
      }
      assert chunkVec == chunks;
      return Some(tokens + [ListDirectoryLine(chunkVec)]);
    }
  }

  /* ---------- The directory tree ---------- */

  datatype File = File(size: nat)

  /** A directory; the parser never sets `size`, which stays 0. */
  datatype Directory = Directory(children: seq<Directory>, files: seq<File>, name: string, size: nat)

  /** The root: no children, no files, named `/`. */
  function NewDirectory(): Directory {
    Directory([], [], "/", 0)
  }

  function WithName(name: string): Directory {
    Directory([], [], name, 0)
  }

  /** Where the first child called `name` sits, `|children|` when there is none. */
  function FindChild(children: seq<Directory>, name: string): (i: nat)
    ensures i <= |children|
    ensures forall k :: 0 <= k < i ==> children[k].name != name
    ensures i < |children| ==> children[i].name == name
  {
    if children == [] then 0
    else if children[0].name == name then 0
    else 1 + FindChild(children[1..], name)
  }

  /** A directory after `parse_directory`, the position of the next unread token and
      whether a `/` sent the parser back to the root. */
  datatype Parsed = Parsed(dir: Directory, next: nat, toRoot: bool)

  /** What `parse_directory` makes of `dir` reading from position `pos`; `None` when a
      listing line has fewer than two chunks, which makes the source panic. The
      directory keeps its name and its files, and only gains children and files. */
  function DirectoryAfter(dir: Directory, tokens: seq<Token>, pos: nat): (r: Option<Parsed>)
    requires pos <= |tokens|
    ensures r.Some? ==> pos <= r.value.next <= |tokens|
    ensures r.Some? && r.value.toRoot ==> pos < r.value.next
    ensures r.Some? ==> r.value.dir.name == dir.name && r.value.dir.size == dir.size
    ensures r.Some? ==> |dir.files| <= |r.value.dir.files| && r.value.dir.files[..|dir.files|] == dir.files
    ensures r.Some? ==> |dir.children| <= |r.value.dir.children|
    decreases |tokens| - pos
  {
    if pos == |tokens| then Some(Parsed(dir, pos, false))
    else match tokens[pos]
      case DirectoryName(name) =>
        if name == ".." then Some(Parsed(dir, pos + 1, false))
        else if name == "/" then Some(Parsed(dir, pos + 1, true))
        else
          var i := FindChild(dir.children, name);
          var child := if i < |dir.children| then dir.children[i] else WithName(name);
          (match DirectoryAfter(child, tokens, pos + 1)
           case None => None
           case Some(sub) =>
             var dir' :=
               if i < |dir.children| then dir.(children := dir.children[i := sub.dir])
               else dir.(children := dir.children + [sub.dir]);
             if sub.toRoot then Some(Parsed(dir', sub.next, true))
             else DirectoryAfter(dir', tokens, sub.next))
      case ListDirectoryLine(line) =>
        if |line| < 2 then None
        else match ParseBelow(line[0], U64Limit)
          case Some(size) => DirectoryAfter(dir.(files := dir.files + [File(size)]), tokens, pos + 1)
          case None => DirectoryAfter(dir.(children := dir.children + [WithName(line[1])]), tokens, pos + 1)
  }

  /** `parse_tokens`: parse into the root again for as long as a `/` sends the parser back. */
  function TreeAfter(root: Directory, tokens: seq<Token>, pos: nat): Option<Directory>
    requires pos <= |tokens|
    decreases |tokens| - pos
  {
    match DirectoryAfter(root, tokens, pos)
    case None => None
    case Some(p) => if p.toRoot then TreeAfter(p.dir, tokens, p.next) else Some(p.dir)
  }

  /** `parse_directory`: reads tokens until `..`, `/` or the end, descending into the
      named child (a new one when there is none yet) for every other name. */
  method ParseDirectory(dir: Directory, tokens: seq<Token>, pos: nat) returns (r: Option<Parsed>)
    requires pos <= |tokens|
    ensures r == DirectoryAfter(dir, tokens, pos)
    decreases |tokens| - pos
  {
    var d, p := dir, pos;
    while true
      invariant pos <= p <= |tokens|
      invariant DirectoryAfter(d, tokens, p) == DirectoryAfter(dir, tokens, pos)
      decreases |tokens| - p
    {
      if p == |tokens| {
        return Some(Parsed(d, p, false));
      }
      match tokens[p]
      case DirectoryName(name) =>
        if name == ".." {
          return Some(Parsed(d, p + 1, false));
        }
        if name == "/" {
          return Some(Parsed(d, p + 1, true));
        }
        var i := FindChild(d.children, name);
        var child := if i < |d.children| then d.children[i] else WithName(name);
        var sub := ParseDirectory(child, tokens, p + 1);
        if sub.None? {
          return None;
        }
        if i < |d.children| {
          d := d.(children := d.children[i := sub.value.dir]);
        } else {
          d := d.(children := d.children + [sub.value.dir]);
        }
        if sub.value.toRoot {
          return Some(Parsed(d, sub.value.next, true));
        }
        p := sub.value.next;
      case ListDirectoryLine(line) =>
        if |line| < 2 {
          return None;
        }
        var size := ParseBelow(line[0], U64Limit);
        if size.Some? {
          d := d.(files := d.files + [File(size.value)]);
        } else {
          d := d.(children := d.children + [WithName(line[1])]);
        }
        p := p + 1;
    }
  }

  /** `parse_tokens`: a fresh root, parsed into again after every `/`. */
  method ParseTokens(tokens: seq<Token>) returns (r: Option<Directory>)
    ensures r == TreeAfter(NewDirectory(), tokens, 0)
  {
    var root, pos := NewDirectory(), 0;
    while true
      invariant pos <= |tokens|
      invariant TreeAfter(root, tokens, pos) == TreeAfter(NewDirectory(), tokens, 0)
      decreases |tokens| - pos
    {
      var p := ParseDirectory(root, tokens, pos);
      if p.None? {
        return None;
      }
      if !p.value.toRoot {
        return Some(p.value.dir);
      }
      root, pos := p.value.dir, p.value.next;
    }
  }

  /** Every directory of the tree has a `size` field of 0. */
  predicate ZeroSizes(d: Directory)
    decreases d
  {
    d.size == 0 && forall i :: 0 <= i < |d.children| ==> ZeroSizes(d.children[i])
  }

  /** Parsing never writes a `size` field: a tree whose fields are 0 keeps them 0. */
  lemma {:induction false} DirectoryAfterKeepsZeroSizes(dir: Directory, tokens: seq<Token>, pos: nat)
    requires pos <= |tokens| && ZeroSizes(dir)
    ensures DirectoryAfter(dir, tokens, pos).Some? ==> ZeroSizes(DirectoryAfter(dir, tokens, pos).value.dir)
    decreases |tokens| - pos
  {
    if pos < |tokens| {
      match tokens[pos]
      case DirectoryName(name) =>
        if name != ".." && name != "/" {
          var i := FindChild(dir.children, name);
          var child := if i < |dir.children| then dir.children[i] else WithName(name);
          DirectoryAfterKeepsZeroSizes(child, tokens, pos + 1);
          var r := DirectoryAfter(child, tokens, pos + 1);
          if r.Some? {
            var sub := r.value;
            var dir' :=
              if i < |dir.children| then dir.(children := dir.children[i := sub.dir])
              else dir.(children := dir.children + [sub.dir]);
            assert ZeroSizes(dir');
            if !sub.toRoot {
              DirectoryAfterKeepsZeroSizes(dir', tokens, sub.next);
            }
          }
        }
      case ListDirectoryLine(line) =>
        if |line| >= 2 {
          var dir' := match ParseBelow(line[0], U64Limit)
            case Some(size) => dir.(files := dir.files + [File(size)])
            case None => dir.(children := dir.children + [WithName(line[1])]);
          assert ZeroSizes(dir');
          DirectoryAfterKeepsZeroSizes(dir', tokens, pos + 1);
        }
    }
  }

  lemma {:induction false} TreeAfterKeepsZeroSizes(root: Directory, tokens: seq<Token>, pos: nat)
    requires pos <= |tokens| && ZeroSizes(root)
    ensures TreeAfter(root, tokens, pos).Some? ==> ZeroSizes(TreeAfter(root, tokens, pos).value)
    decreases |tokens| - pos
  {
    DirectoryAfterKeepsZeroSizes(root, tokens, pos);
    var r := DirectoryAfter(root, tokens, pos);
    if r.Some? && r.value.toRoot {
      TreeAfterKeepsZeroSizes(r.value.dir, tokens, r.value.next);
    }
  }

  /** Every directory of a parsed tree has a `size` field of 0. */
  lemma ParsedSizesAreZero(tokens: seq<Token>)
    ensures TreeAfter(NewDirectory(), tokens, 0).Some? ==> ZeroSizes(TreeAfter(NewDirectory(), tokens, 0).value)
  {
    TreeAfterKeepsZeroSizes(NewDirectory(), tokens, 0);
  }

  /** `cd X` followed by `cd ..` reuses a child called X when there is one, and otherwise
      appends a new empty child called X. */
  lemma CdReusesChild(dir: Directory, x: string)
    requires x != ".." && x != "/"
    ensures var r := DirectoryAfter(dir, [DirectoryName(x), DirectoryName("..")], 0);
      r.Some? && r.value.next == 2 && !r.value.toRoot
      && r.value.dir.files == dir.files
      && (if exists k :: 0 <= k < |dir.children| && dir.children[k].name == x
          then r.value.dir.children == dir.children
          else r.value.dir.children == dir.children + [WithName(x)])
  {
    var tokens := [DirectoryName(x), DirectoryName("..")];
    var i := FindChild(dir.children, x);
    var child := if i < |dir.children| then dir.children[i] else WithName(x);
    assert DirectoryAfter(child, tokens, 1) == Some(Parsed(child, 2, false));
    if i < |dir.children| {
      assert dir.children[i := child] == dir.children;
    }
  }

  /** The file sizes of the parser's unit test read as unsigned numbers. */
  lemma FirstExampleSize()
    ensures ParseBelow("14848514", U64Limit) == Some(14848514)
  {
    assert DigitsValue("1") == 1;
    assert "14"[..1] == "1";
    assert DigitsValue("14") == 14;
    assert "148"[..2] == "14";
    assert DigitsValue("148") == 148;
    assert "1484"[..3] == "148";
    assert DigitsValue("1484") == 1484;
    assert "14848"[..4] == "1484";
    assert DigitsValue("14848") == 14848;
    assert "148485"[..5] == "14848";
    assert DigitsValue("148485") == 148485;
    assert "1484851"[..6] == "148485";
    assert DigitsValue("1484851") == 1484851;
    assert "14848514"[..7] == "1484851";
    assert DigitsValue("14848514") == 14848514;
  }

  lemma SecondExampleSize()
    ensures ParseBelow("8504156", U64Limit) == Some(8504156)
  {
    assert DigitsValue("8") == 8;
    assert "85"[..1] == "8";
    assert DigitsValue("85") == 85;
    assert "850"[..2] == "85";
    assert DigitsValue("850") == 850;
    assert "8504"[..3] == "850";
    assert DigitsValue("8504") == 8504;
    assert "85041"[..4] == "8504";
    assert DigitsValue("85041") == 85041;
    assert "850415"[..5] == "85041";
    assert DigitsValue("850415") == 850415;
    assert "8504156"[..6] == "850415";
    assert DigitsValue("8504156") == 8504156;
  }

  /** The token stream of the parser's unit test: one `/`, two child listings and two
      files give a root holding the two files and two empty children, in listing order. */
  lemma ParseTokensExample()
    ensures TreeAfter(NewDirectory(),
      [DirectoryName("/"),
       ListDirectoryLine(["dir", "a"]),
       ListDirectoryLine(["14848514", "b.txt"]),
       ListDirectoryLine(["8504156", "c.dat"]),
       ListDirectoryLine(["dir", "d"])], 0)
      == Some(Directory([WithName("a"), WithName("d")], [File(14848514), File(8504156)], "/", 0))
  {
    var tokens := [DirectoryName("/"),
       ListDirectoryLine(["dir", "a"]),
       ListDirectoryLine(["14848514", "b.txt"]),
       ListDirectoryLine(["8504156", "c.dat"]),
       ListDirectoryLine(["dir", "d"])];
    assert !IsDigit('d');
    FirstExampleSize();
    SecondExampleSize();
    var root := NewDirectory();
    var d1 := root.(children := [WithName("a")]);
    var d2 := d1.(files := [File(14848514)]);
    var d3 := d2.(files := [File(14848514), File(8504156)]);
    var d4 := d3.(children := [WithName("a"), WithName("d")]);
    assert root.children + [WithName("a")] == d1.children;
    assert d1.files + [File(14848514)] == d2.files;
    assert d2.files + [File(8504156)] == d3.files;
    assert d3.children + [WithName("d")] == d4.children;
    assert DirectoryAfter(d4, tokens, 5) == Some(Parsed(d4, 5, false));
    assert DirectoryAfter(d3, tokens, 4) == Some(Parsed(d4, 5, false));
    assert DirectoryAfter(d2, tokens, 3) == Some(Parsed(d4, 5, false));
    assert DirectoryAfter(d1, tokens, 2) == Some(Parsed(d4, 5, false));
    assert DirectoryAfter(root, tokens, 1) == Some(Parsed(d4, 5, false));
    assert DirectoryAfter(root, tokens, 0) == Some(Parsed(root, 1, true));
  }

  /* ---------- Sizes ---------- */

  function FilesSize(files: seq<File>): nat {
    if files == [] then 0 else files[0].size + FilesSize(files[1..])
  }

  /** `get_size`: the sizes of the directory's own files plus the sizes of its children. */
  function GetSize(d: Directory): nat
    decreases d
  {
    FilesSize(d.files) + ChildrenSize(d.children)
  }

  function ChildrenSize(cs: seq<Directory>): nat
    decreases cs
  {
    if cs == [] then 0 else GetSize(cs[0]) + ChildrenSize(cs[1..])
  }

  /** The sizes of all directories of a tree, the root's first and then each child's
      subtree in order. */
  function Sizes(d: Directory): (r: seq<nat>)
    decreases d
  {
    [GetSize(d)] + ChildrenSizes(d.children)
  }

  function ChildrenSizes(cs: seq<Directory>): seq<nat>
    decreases cs
  {
    if cs == [] then [] else Sizes(cs[0]) + ChildrenSizes(cs[1..])
  }

  /** No directory of a tree is larger than its root. */
  lemma {:induction false} SizesBelowRoot(d: Directory)
    ensures forall k :: 0 <= k < |Sizes(d)| ==> Sizes(d)[k] <= GetSize(d)
    decreases d
  {
    ChildrenSizesBelowTotal(d.children);
  }

  lemma {:induction false} ChildrenSizesBelowTotal(cs: seq<Directory>)
    ensures forall k :: 0 <= k < |ChildrenSizes(cs)| ==> ChildrenSizes(cs)[k] <= ChildrenSize(cs)
    decreases cs
  {
    if cs != [] {
      SizesBelowRoot(cs[0]);
      ChildrenSizesBelowTotal(cs[1..]);
    }
  }

  /** A directory is at least as large as each of its children. */
  lemma ChildBelowParent(d: Directory, i: nat)
    requires i < |d.children|
    ensures GetSize(d.children[i]) <= GetSize(d)
  {
    ChildSizeBelowTotal(d.children, i);
  }

  lemma {:induction false} ChildSizeBelowTotal(cs: seq<Directory>, i: nat)
    requires i < |cs|
    ensures GetSize(cs[i]) <= ChildrenSize(cs)
    decreases cs
  {
    if i > 0 {
      ChildSizeBelowTotal(cs[1..], i - 1);
    }
  }

  /** The sum of the elements of `xs` that are smaller than `n`. */
  function SumBelow(xs: seq<nat>, n: nat): nat {
    if xs == [] then 0 else (if xs[0] < n then xs[0] else 0) + SumBelow(xs[1..], n)
  }

  lemma {:induction false} SumBelowAppend(a: seq<nat>, b: seq<nat>, n: nat)
    ensures SumBelow(a + b, n) == SumBelow(a, n) + SumBelow(b, n)
    decreases |a|
  {
    if a == [] {
      assert a + b == b;
    } else {
      assert (a + b)[1..] == a[1..] + b;
      SumBelowAppend(a[1..], b, n);
    }
  }

  /** `get_sum_less_than`: the directory's own size when it is below `n`, plus what its
      children report. */
  function GetSumLessThan(d: Directory, n: nat): nat
    decreases d
  {
    var size := GetSize(d);
    var sumLess := ChildrenSumLessThan(d.children, n);
    if size < n then sumLess + size else sumLess
  }

  function ChildrenSumLessThan(cs: seq<Directory>, n: nat): nat
    decreases cs
  {
    if cs == [] then 0 else GetSumLessThan(cs[0], n) + ChildrenSumLessThan(cs[1..], n)
  }

  /** The sum of the sizes below `n` of every directory of the tree, the root included. */
  lemma {:induction false} GetSumLessThanSpec(d: Directory, n: nat)
    ensures GetSumLessThan(d, n) == SumBelow(Sizes(d), n)
    decreases d
  {
    ChildrenSumLessThanSpec(d.children, n);
    SumBelowAppend([GetSize(d)], ChildrenSizes(d.children), n);
  }

  lemma {:induction false} ChildrenSumLessThanSpec(cs: seq<Directory>, n: nat)
    ensures ChildrenSumLessThan(cs, n) == SumBelow(ChildrenSizes(cs), n)
    decreases cs
  {
    if cs != [] {
      GetSumLessThanSpec(cs[0], n);
      ChildrenSumLessThanSpec(cs[1..], n);
      SumBelowAppend(Sizes(cs[0]), ChildrenSizes(cs[1..]), n);
    }
  }

  /** The filter of `find_smallest_child_less_than`: as written it keeps the sizes strictly
      above `n` (`strict`); the corrected filter keeps those of at least `n`. */
  predicate Qualifies(size: nat, n: nat, strict: bool) {
    if strict then size > n else size >= n
  }

  /** `find_smallest_child_less_than` with the filter as a parameter: the smallest of the
      children's answers that pass the filter, or the directory's own size when none does. */
  function FindSmallest(d: Directory, n: nat, strict: bool): nat
    decreases d
  {
    var smallest := SmallestQualifying(d.children, n, strict);
    if smallest.None? || smallest.value < n then GetSize(d) else smallest.value
  }

  /** The least of the children's answers that pass the filter. */
  function SmallestQualifying(cs: seq<Directory>, n: nat, strict: bool): Option<nat>
    decreases cs
  {
    if cs == [] then None
    else
      var v := FindSmallest(cs[0], n, strict);
      var rest := SmallestQualifying(cs[1..], n, strict);
      if !Qualifies(v, n, strict) then rest
      else if rest.Some? && rest.value < v then rest
      else Some(v)
  }

  /** `find_smallest_child_less_than` as written. */
  function FindSmallestChildLessThan(d: Directory, n: nat): nat {
    FindSmallest(d, n, true)
  }

  /** The same search keeping the directories of size at least `n`. */
  function FindSmallestAtLeast(d: Directory, n: nat): nat {
    FindSmallest(d, n, false)
  }

  lemma {:induction false} FindSmallestSpec(d: Directory, n: nat, strict: bool)
    ensures var r := FindSmallest(d, n, strict);
      var zs := Sizes(d);
      r in zs && r <= GetSize(d)
      && (Qualifies(GetSize(d), n, strict) ==>
            Qualifies(r, n, strict)
            && forall k :: 0 <= k < |zs| && Qualifies(zs[k], n, strict) ==> r <= zs[k])
      && (!Qualifies(GetSize(d), n, strict) ==> r == GetSize(d))
    decreases d
  {
    var size := GetSize(d);
    var zs := ChildrenSizes(d.children);
    SmallestQualifyingSpec(d.children, n, strict);
    ChildrenSizesBelowTotal(d.children);
    assert Sizes(d) == [size] + zs;
    var smallest := SmallestQualifying(d.children, n, strict);
    var r := FindSmallest(d, n, strict);
    forall k | 1 <= k < |Sizes(d)| ensures Sizes(d)[k] == zs[k - 1] {
    }
    if smallest.Some? {
      var m := smallest.value;
      assert r == m;
      assert m <= size;
      assert Qualifies(size, n, strict);
      forall k | 0 <= k < |Sizes(d)| && Qualifies(Sizes(d)[k], n, strict) ensures r <= Sizes(d)[k] {
        if k > 0 {
          assert Qualifies(zs[k - 1], n, strict);
        }
      }
    } else {
      assert r == size;
    }
  }

  lemma {:induction false} SmallestQualifyingSpec(cs: seq<Directory>, n: nat, strict: bool)
    ensures SmallestQualifying(cs, n, strict).None? ==>
      forall k :: 0 <= k < |ChildrenSizes(cs)| ==> !Qualifies(ChildrenSizes(cs)[k], n, strict)
    ensures SmallestQualifying(cs, n, strict).Some? ==>
      var m := SmallestQualifying(cs, n, strict).value;
      Qualifies(m, n, strict) && m in ChildrenSizes(cs)
      && forall k :: 0 <= k < |ChildrenSizes(cs)| && Qualifies(ChildrenSizes(cs)[k], n, strict) ==> m <= ChildrenSizes(cs)[k]
    decreases cs
  {
    if cs != [] {
      var a := Sizes(cs[0]);
      var b := ChildrenSizes(cs[1..]);
      var zs := a + b;
      assert ChildrenSizes(cs) == zs;
      var v := FindSmallest(cs[0], n, strict);
      var rest := SmallestQualifying(cs[1..], n, strict);
      FindSmallestSpec(cs[0], n, strict);
      SizesBelowRoot(cs[0]);
      SmallestQualifyingSpec(cs[1..], n, strict);
      forall k | 0 <= k < |zs| ensures zs[k] == if k < |a| then a[k] else b[k - |a|] {
      }
      if !Qualifies(v, n, strict) {
        assert !Qualifies(GetSize(cs[0]), n, strict);
        forall k | 0 <= k < |a| ensures !Qualifies(a[k], n, strict) {
        }
        if rest.Some? {
          var k :| 0 <= k < |b| && b[k] == rest.value;
          assert zs[|a| + k] == rest.value;
        }
      } else {
        assert Qualifies(GetSize(cs[0]), n, strict);
        var k :| 0 <= k < |a| && a[k] == v;
        assert zs[k] == v;
        if rest.Some? {
          var k :| 0 <= k < |b| && b[k] == rest.value;
          assert zs[|a| + k] == rest.value;
        }
      }
    }
  }

  /** As written: when the tree's size is above `n`, the answer is the size of the
      smallest directory that is strictly larger than `n`; otherwise the tree's size. */
  lemma FindSmallestChildLessThanSpec(d: Directory, n: nat)
    ensures var r := FindSmallestChildLessThan(d, n);
      var zs := Sizes(d);
      r in zs && r <= GetSize(d)
      && (GetSize(d) > n ==> r > n && forall k :: 0 <= k < |zs| && zs[k] > n ==> r <= zs[k])
      && (GetSize(d) <= n ==> r == GetSize(d))
  {
    FindSmallestSpec(d, n, true);
  }

  /** Corrected: when the tree's size is at least `n`, the answer is the size of the
      smallest directory whose removal frees at least `n`; otherwise the tree's size. */
  lemma FindSmallestAtLeastSpec(d: Directory, n: nat)
    ensures var r := FindSmallestAtLeast(d, n);
      var zs := Sizes(d);
      r in zs && r <= GetSize(d)
      && (GetSize(d) >= n ==> r >= n && forall k :: 0 <= k < |zs| && zs[k] >= n ==> r <= zs[k])
      && (GetSize(d) < n ==> r == GetSize(d))
  {
    FindSmallestSpec(d, n, false);
  }

  /** A child of exactly the requested size is passed over as written: a root with a
      60-unit file and a child holding a 40-unit file, asked for 40, answers 100 where the
      corrected search answers 40. */
  lemma FindSmallestMissesExactFit()
    ensures var d := Directory([Directory([], [File(40)], "a", 0)], [File(60)], "/", 0);
      40 in Sizes(d) && FindSmallestChildLessThan(d, 40) == 100 && FindSmallestAtLeast(d, 40) == 40
  {
    var a := Directory([], [File(40)], "a", 0);
    var d := Directory([a], [File(60)], "/", 0);
    assert GetSize(a) == 40;
    assert [a][1..] == [];
    assert ChildrenSize([a]) == 40;
    assert GetSize(d) == 100;
    assert ChildrenSizes([a]) == [40];
    assert FindSmallest(a, 40, true) == 40;
    assert FindSmallest(a, 40, false) == 40;
    assert Sizes(a) == [40];
    assert Sizes(d) == [100, 40];
  }
}
