/**
 * Bundle configuration of the current shim: the validation that turns the
 * decoded config.json of a bundle into a root path, an entry point and a
 * search path, and the path helpers it relies on.
 */
module ShimConfig {
  import opened Wrappers

  const PathSeparator: char := '/'
  const ListSeparator: char := ':'
  const PathPrefix: string := "PATH="
  const BfExtension: string := ".bf"
  const BrainfuckExtension: string := ".brainfuck"

  predicate HasPrefix(s: string, p: string)
  {
    |p| <= |s| && s[..|p|] == p
  }

  predicate EndsWith(s: string, x: string)
  {
    |x| <= |s| && s[|s| - |x|..] == x
  }

  /** The fields of config.json the shim decodes: `root.path`, `process.args`
      and `process.env`. A field absent from the file decodes to its zero value. */
  datatype Document = Document(rootPath: string, args: seq<string>, env: seq<string>)

  /** What the file system gave back for `<bundle>/config.json`. */
  datatype ConfigFile =
    | NotExist                 // stat reports that the file does not exist
    | StatError                // stat failed for another reason
    | ReadError                // the file could not be read
    | Malformed                // the contents are not a JSON document of that shape
    | Decoded(doc: Document)

  /** What stat said of the entry-point script under the root path. */
  datatype ScriptStat = ScriptExists | ScriptNotExist | ScriptStatError

  datatype ConfigError =
    | ConfigNotFound
    | ConfigStatFailed
    | ConfigReadFailed
    | ConfigMalformed
    | RootPathMissing
    | WrongArgCount(count: nat)
    | NotBrainfuck(entrypoint: string)
    | ScriptNotFound(entrypoint: string)
    | ScriptStatFailed(entrypoint: string)

  /** The resolved configuration: root path, entry point and search path. */
  datatype Config = Config(root: string, entrypoint: string, path: seq<string>)

  // ---------------------------------------------------------------------
  // File name extension

  /** The extension of `p`: the suffix from the last dot of its final path
      element, or "" when that element has no dot. */
  function Ext(p: string): (e: string)
    ensures EndsWith(p, e)
    ensures e != [] ==> e[0] == '.'
    ensures forall k :: 0 < k < |e| ==> e[k] != '.' && e[k] != PathSeparator
  {
    ExtFrom(p, |p|)
  }

  /** The scan of Ext over `p[..i]`, from its last character backwards. */
  function ExtFrom(p: string, i: nat): (e: string)
    requires i <= |p|
    requires forall k :: i <= k < |p| ==> p[k] != '.' && p[k] != PathSeparator
    ensures EndsWith(p, e)
    ensures e != [] ==> e[0] == '.' && |p| - |e| < i
    ensures forall k :: 0 < k < |e| ==> e[k] != '.' && e[k] != PathSeparator
    decreases i
  {
    if i == 0 || p[i - 1] == PathSeparator then ""
    else if p[i - 1] == '.' then p[i - 1..]
    else ExtFrom(p, i - 1)
  }

  /** A dot followed by characters that are neither dots nor separators. */
  predicate IsExtension(x: string)
  {
    |x| >= 1 && x[0] == '.' && forall k :: 0 < k < |x| ==> x[k] != '.' && x[k] != PathSeparator
  }

  /** The backward scan passes over characters that are neither dots nor separators. */
  lemma {:induction false} ExtFromSkips(p: string, i: nat, j: nat)
    requires j <= i <= |p|
    requires forall k :: j <= k < |p| ==> p[k] != '.' && p[k] != PathSeparator
    ensures ExtFrom(p, i) == ExtFrom(p, j)
    decreases i
  {
    if i > j {
      ExtFromSkips(p, i - 1, j);
    }
  }

  /** A path has a given extension exactly when it ends with it. */
  lemma ExtIsSuffix(p: string, x: string)
    requires IsExtension(x)
    ensures Ext(p) == x <==> EndsWith(p, x)
  {
    if EndsWith(p, x) {
      var d := |p| - |x|;
      assert p[d] == x[0] == '.';
      forall k | d + 1 <= k < |p|
        ensures p[k] != '.' && p[k] != PathSeparator
      {
        assert p[k] == x[k - d];
      }
      ExtFromSkips(p, |p|, d + 1);
    }
  }

  /** The entry point must be a `.bf` or `.brainfuck` file. */
  predicate IsBrainfuckFile(entrypoint: string)
  {
    Ext(entrypoint) == BfExtension || Ext(entrypoint) == BrainfuckExtension
  }

  lemma BrainfuckFileByName(entrypoint: string)
    ensures IsBrainfuckFile(entrypoint)
        <==> EndsWith(entrypoint, BfExtension) || EndsWith(entrypoint, BrainfuckExtension)
  {
    ExtIsSuffix(entrypoint, BfExtension);
    ExtIsSuffix(entrypoint, BrainfuckExtension);
  }

  // ---------------------------------------------------------------------
  // Splitting a PATH value

  /** `s` cut at every occurrence of `sep`; one more piece than separators. */
  function Split(s: string, sep: char): (parts: seq<string>)
    ensures |parts| >= 1
    ensures forall i :: 0 <= i < |parts| ==> sep !in parts[i]
  {
    if s == [] then [""]
    else
      var rest := Split(s[1..], sep);
      if s[0] == sep then [""] + rest else [[s[0]] + rest[0]] + rest[1..]
  }

  /** The pieces glued back together with `sep` between neighbours. */
  function Join(parts: seq<string>, sep: char): string
    requires |parts| >= 1
  {
    if |parts| == 1 then parts[0] else parts[0] + [sep] + Join(parts[1..], sep)
  }

  lemma {:induction false} JoinSplit(s: string, sep: char)
    ensures Join(Split(s, sep), sep) == s
  {
    if s != [] {
      JoinSplit(s[1..], sep);
      var rest := Split(s[1..], sep);
      if s[0] == sep {
        assert Split(s, sep)[1..] == rest;
      } else {
        var parts := Split(s, sep);
        if |rest| == 1 {
          assert parts == [[s[0]] + rest[0]];
        } else {
          assert parts[1..] == rest[1..];
          assert Join(rest, sep) == rest[0] + [sep] + Join(rest[1..], sep);
        }
      }
    }
  }

  lemma {:induction false} SplitPrefix(a: string, t: string, sep: char)
    requires sep !in a
    ensures Split(a + t, sep) == [a + Split(t, sep)[0]] + Split(t, sep)[1..]
  {
    if a != [] {
      assert a[0] in a;
      assert (a + t)[0] == a[0] != sep;
      assert (a + t)[1..] == a[1..] + t;
      assert sep !in a[1..] by {
        forall k | 0 <= k < |a[1..]| ensures a[1..][k] != sep { assert a[1..][k] == a[k + 1]; }
      }
      SplitPrefix(a[1..], t, sep);
      var rest := Split((a + t)[1..], sep);
      assert Split(a + t, sep) == [[(a + t)[0]] + rest[0]] + rest[1..];
      assert [a[0]] + (a[1..] + Split(t, sep)[0]) == a + Split(t, sep)[0];
    } else {
      assert a + t == t;
      assert a + Split(t, sep)[0] == Split(t, sep)[0];
      assert [a + Split(t, sep)[0]] + Split(t, sep)[1..] == Split(t, sep);
    }
  }

  lemma {:induction false} SplitJoin(parts: seq<string>, sep: char)
    requires |parts| >= 1
    requires forall i :: 0 <= i < |parts| ==> sep !in parts[i]
    ensures Split(Join(parts, sep), sep) == parts
  {
    if |parts| == 1 {
      SplitPrefix(parts[0], "", sep);
      assert parts[0] + "" == parts[0];
    } else {
      var t := Join(parts[1..], sep);
      SplitJoin(parts[1..], sep);
      assert parts[0] + [sep] + t == parts[0] + ([sep] + t);
      SplitPrefix(parts[0], [sep] + t, sep);
      assert ([sep] + t)[1..] == t;
      assert Split([sep] + t, sep) == [""] + parts[1..];
      assert parts[0] + "" == parts[0];
      assert [parts[0]] + parts[1..] == parts;
    }
  }

  // ---------------------------------------------------------------------
  // The search path

  /** The value of the first `PATH=` entry of the environment split on ':',
      or no search path when no entry has that prefix. */
  function SearchPath(env: seq<string>): (path: seq<string>)
    ensures forall i :: 0 <= i < |path| ==> ListSeparator !in path[i]
  {
    if env == [] then []
    else if HasPrefix(env[0], PathPrefix) then Split(env[0][|PathPrefix|..], ListSeparator)
    else SearchPath(env[1..])
  }

  /** The search path is empty exactly when no entry starts with `PATH=`;
      otherwise it is the value of the first such entry, cut at the colons. */
  lemma {:induction false} SearchPathOfFirstEntry(env: seq<string>)
    ensures (forall i :: 0 <= i < |env| ==> !HasPrefix(env[i], PathPrefix)) <==> SearchPath(env) == []
    ensures forall i :: 0 <= i < |env| && HasPrefix(env[i], PathPrefix)
                     && (forall k :: 0 <= k < i ==> !HasPrefix(env[k], PathPrefix))
                     ==> Join(SearchPath(env), ListSeparator) == env[i][|PathPrefix|..]
  {
    if env != [] {
      SearchPathOfFirstEntry(env[1..]);
      if HasPrefix(env[0], PathPrefix) {
        JoinSplit(env[0][|PathPrefix|..], ListSeparator);
      } else {
        forall i | 0 <= i < |env| && HasPrefix(env[i], PathPrefix)
                   && (forall k :: 0 <= k < i ==> !HasPrefix(env[k], PathPrefix))
          ensures Join(SearchPath(env), ListSeparator) == env[i][|PathPrefix|..]
        {
          assert env[1..][i - 1] == env[i];
          assert forall k :: 0 <= k < i - 1 ==> env[1..][k] == env[k + 1];
        }
        if SearchPath(env) == [] {
          forall i | 0 <= i < |env| ensures !HasPrefix(env[i], PathPrefix) {
            if i > 0 { assert env[1..][i - 1] == env[i]; }
          }
        }
      }
    }
  }

  /** The number of bytes of the UTF-8 encoding of a rune. */
  function RuneLength(c: char): (n: nat)
    ensures 1 <= n <= 4
    ensures n == 1 <==> c as int < 0x80
  {
    if c as int < 0x80 then 1
    else if c as int < 0x800 then 2
    else if c as int < 0x1_0000 then 3
    else 4
  }

  /** The number of bytes of the UTF-8 encoding of a text: at least one per
      rune, and exactly one per rune for ASCII text. */
  function Utf8Length(s: string): (n: nat)
    ensures |s| <= n <= 4 * |s|
    ensures (forall i :: 0 <= i < |s| ==> s[i] as int < 0x80) ==> n == |s|
  {
    if s == [] then 0 else RuneLength(s[0]) + Utf8Length(s[1..])
  }

  /** How the environment scan as written ends: with a search path, or with a
      runtime panic when it slices the first five bytes of a shorter entry. */
  datatype Scan = Completed(path: seq<string>) | Panicked

  /**
   * The environment scan as written: it slices `env[0:5]`, the first five
   * bytes of the UTF-8 encoding, which panics on an entry shorter than five
   * bytes met before a PATH entry. On a longer entry, comparing those bytes
   * with the ASCII "PATH=" is comparing the first five runes: every byte of a
   * multi-byte encoding is at least 0x80.
   */
  function SearchPathAsWritten(env: seq<string>): (r: Scan)
    ensures r.Completed? ==> forall i :: 0 <= i < |r.path| ==> ListSeparator !in r.path[i]
  {
    if env == [] then Completed([])
    else if Utf8Length(env[0]) < |PathPrefix| then Panicked
    else if HasPrefix(env[0], PathPrefix) then Completed(Split(env[0][|PathPrefix|..], ListSeparator))
    else SearchPathAsWritten(env[1..])
  }

  /** The scan as written agrees with SearchPath unless it panics, and it
      panics exactly when a short entry precedes every PATH entry. */
  lemma {:induction false} SearchPathAsWrittenAgrees(env: seq<string>)
    ensures SearchPathAsWritten(env).Completed? ==> SearchPathAsWritten(env).path == SearchPath(env)
    ensures SearchPathAsWritten(env).Panicked?
        <==> exists i :: 0 <= i < |env| && Utf8Length(env[i]) < |PathPrefix|
                         && forall k :: 0 <= k < i ==> !HasPrefix(env[k], PathPrefix)
  {
    AsWrittenCompletesWithSearchPath(env);
    if SearchPathAsWritten(env).Panicked? {
      AsWrittenPanicsOnlyOnShortEntry(env);
    }
    forall i | 0 <= i < |env| && Utf8Length(env[i]) < |PathPrefix|
                && forall k :: 0 <= k < i ==> !HasPrefix(env[k], PathPrefix)
      ensures SearchPathAsWritten(env).Panicked?
    {
      AsWrittenPanicsOnShortEntry(env, i);
    }
  }

  lemma {:induction false} AsWrittenCompletesWithSearchPath(env: seq<string>)
    ensures SearchPathAsWritten(env).Completed? ==> SearchPathAsWritten(env).path == SearchPath(env)
  {
    if env != [] {
      AsWrittenCompletesWithSearchPath(env[1..]);
    }
  }

  /** A panic of the scan as written comes from a short entry before every PATH entry. */
  lemma {:induction false} AsWrittenPanicsOnlyOnShortEntry(env: seq<string>)
    requires SearchPathAsWritten(env).Panicked?
    ensures exists i :: 0 <= i < |env| && Utf8Length(env[i]) < |PathPrefix|
                        && forall k :: 0 <= k < i ==> !HasPrefix(env[k], PathPrefix)
  {
    if Utf8Length(env[0]) < |PathPrefix| {
      assert 0 < |env| && Utf8Length(env[0]) < |PathPrefix|;
    } else {
      AsWrittenPanicsOnlyOnShortEntry(env[1..]);
      var i :| 0 <= i < |env[1..]| && Utf8Length(env[1..][i]) < |PathPrefix|
               && forall k :: 0 <= k < i ==> !HasPrefix(env[1..][k], PathPrefix);
      assert Utf8Length(env[i + 1]) < |PathPrefix|;
      forall k | 0 <= k < i + 1 ensures !HasPrefix(env[k], PathPrefix) {
        if k > 0 { assert env[k] == env[1..][k - 1]; }
      }
    }
  }

  /** A short entry before every PATH entry makes the scan as written panic. */
  lemma {:induction false} AsWrittenPanicsOnShortEntry(env: seq<string>, i: nat)
    requires i < |env| && Utf8Length(env[i]) < |PathPrefix|
    requires forall k :: 0 <= k < i ==> !HasPrefix(env[k], PathPrefix)
    ensures SearchPathAsWritten(env).Panicked?
  {
    if i > 0 {
      assert !HasPrefix(env[0], PathPrefix);
      forall k | 0 <= k < i - 1 ensures !HasPrefix(env[1..][k], PathPrefix) {
        assert env[1..][k] == env[k + 1];
      }
      AsWrittenPanicsOnShortEntry(env[1..], i - 1);
    }
  }



  /** "éé=1" has four runes, fewer than "PATH=", but six bytes: each 'é' takes two. */
  lemma WideEntryLength()
    ensures |"\U{e9}\U{e9}=1"| < |PathPrefix|
    ensures Utf8Length("\U{e9}\U{e9}=1") == 6
  {
    var wide: string := "\U{e9}\U{e9}=1";
    assert wide[1..] == "\U{e9}=1";
    assert wide[1..][1..] == "=1";
  }

  /** One entry of the scan as written that is long enough to slice. */
  lemma AsWrittenStep(entry: string, rest: seq<string>)
    requires |PathPrefix| <= Utf8Length(entry)
    ensures SearchPathAsWritten([entry] + rest)
            == if HasPrefix(entry, PathPrefix) then Completed(Split(entry[|PathPrefix|..], ListSeparator))
               else SearchPathAsWritten(rest)
  {
    assert ([entry] + rest)[1..] == rest;
  }

  /** The scan as written slices the five bytes of "éé=1" without panicking and,
      not finding "PATH=", moves on to the rest of the environment. */
  lemma WideEntrySkipped(rest: seq<string>)
    ensures SearchPathAsWritten(["\U{e9}\U{e9}=1"] + rest) == SearchPathAsWritten(rest)
  {
    var wide: string := "\U{e9}\U{e9}=1";
    WideEntryLength();
    assert wide[0] != PathPrefix[0];
    AsWrittenStep(wide, rest);
  }

  /** An entry "A=1" ahead of the PATH entry makes the scan as written panic,
      where the intended scan yields the search path ["/bin"]. */
  lemma ShortEntryPanics()
    ensures SearchPathAsWritten(["A=1", "PATH=/bin"]) == Panicked
    ensures SearchPath(["A=1", "PATH=/bin"]) == ["/bin"]
  {
    assert !HasPrefix("A=1", PathPrefix);
    var path: string := "PATH=/bin";
    assert HasPrefix(path, PathPrefix);
    assert path[|PathPrefix|..] == "/bin";
    assert ["A=1", "PATH=/bin"][1..] == ["PATH=/bin"];
    SplitPrefix("/bin", "", ListSeparator);
    assert "/bin" + "" == "/bin";
  }

  // ---------------------------------------------------------------------
  // Validation

  /** Resolves the decoded config.json of a bundle. The checks run in this
      order: the file, the root path, the number of arguments, the extension of
      the entry point, the existence of the script. */
  function ReadConfig(file: ConfigFile, script: ScriptStat): (r: Result<Config, ConfigError>)
    ensures r.Success? <==>
              && file.Decoded?
              && file.doc.rootPath != ""
              && |file.doc.args| == 1
              && (EndsWith(file.doc.args[0], BfExtension) || EndsWith(file.doc.args[0], BrainfuckExtension))
              && script == ScriptExists
    ensures r.Success? ==> r.value == Config(file.doc.rootPath, file.doc.args[0], SearchPath(file.doc.env))
    ensures file == NotExist ==> r == Failure(ConfigNotFound)
    ensures file.Decoded? && file.doc.rootPath == "" ==> r == Failure(RootPathMissing)
    ensures file.Decoded? && file.doc.rootPath != "" && |file.doc.args| != 1
            ==> r == Failure(WrongArgCount(|file.doc.args|))
  {
    match file
    case NotExist => Failure(ConfigNotFound)
    case StatError => Failure(ConfigStatFailed)
    case ReadError => Failure(ConfigReadFailed)
    case Malformed => Failure(ConfigMalformed)
    case Decoded(doc) =>
      if doc.rootPath == "" then Failure(RootPathMissing)
      else if |doc.args| != 1 then Failure(WrongArgCount(|doc.args|))
      else
        var entrypoint := doc.args[0];
        BrainfuckFileByName(entrypoint);
        if !IsBrainfuckFile(entrypoint) then Failure(NotBrainfuck(entrypoint))
        else if script == ScriptNotExist then Failure(ScriptNotFound(entrypoint))
        else if script == ScriptStatError then Failure(ScriptStatFailed(entrypoint))
        else
          assert EndsWith(entrypoint, BfExtension) || EndsWith(entrypoint, BrainfuckExtension);
          assert script == ScriptExists;
          Success(Config(doc.rootPath, entrypoint, SearchPath(doc.env)))
  }

  /** The script the shim hands to the interpreter: the entry point joined to
      the root path as a separate path element. */
  function FullPath(c: Config): (p: string)
    ensures c.root != "" && c.entrypoint != "" ==>
              HasPrefix(p, c.root) && EndsWith(p, [PathSeparator] + c.entrypoint)
              && |p| == |c.root| + 1 + |c.entrypoint|
    ensures c.root == "" ==> p == c.entrypoint
    ensures c.entrypoint == "" ==> p == c.root
  {
    if c.root == "" then c.entrypoint
    else if c.entrypoint == "" then c.root
    else c.root + [PathSeparator] + c.entrypoint
  }
}
