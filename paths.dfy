/** File-name handling used by `scan_paths` and `process_single_file`:
    Rust's `Path::extension` on Unix paths, ASCII lower-casing, and the
    fixed allow-list of image extensions. */
module Paths {
  import opened Common

  /** The separator of path components. */
  const Separator: char := '/'

  /** The allow-list `jpg`, `jpeg`, `png` that lowered extensions are
      compared against. */
  predicate IsSupportedExtension(e: string)
  {
    e == "jpg" || e == "jpeg" || e == "png"
  }

  /** Index of the last occurrence of `c` in `s`, or -1 when there is none. */
  function LastIndexOf(s: string, c: char): (r: int)
    ensures -1 <= r < |s|
    ensures r == -1 <==> c !in s
    ensures 0 <= r ==> s[r] == c
    ensures forall j | r < j < |s| :: s[j] != c
  {
    if s == [] then -1
    else if s[|s| - 1] == c then |s| - 1
    else LastIndexOf(s[..|s| - 1], c)
  }

  /** `p` without its trailing separators, which `Path::components` ignores. */
  function TrimTrailingSeparators(p: string): string
  {
    if p != [] && p[|p| - 1] == Separator then TrimTrailingSeparators(p[..|p| - 1]) else p
  }

  /** The text of the last component of `p`: everything after the final
      separator once trailing separators are dropped. */
  function LastComponent(p: string): string
  {
    var t := TrimTrailingSeparators(p);
    t[LastIndexOf(t, Separator) + 1..]
  }

  /** `Path::file_name`: the last component, or none for a path that ends in
      the root, `.` or `..`. */
  function FileName(p: string): Option<string>
  {
    var c := LastComponent(p);
    if c == [] || IsDotComponent(c) then None else Some(c)
  }

  /** The component is `.` or `..`. */
  predicate IsDotComponent(c: string)
  {
    (|c| == 1 && c[0] == '.') || (|c| == 2 && c[0] == '.' && c[1] == '.')
  }

  /** The extension part of a file name: the text after its final `.`,
      or none when it has no dot or its only dot is the leading one. */
  function NameExtension(n: string): Option<string>
  {
    var k := LastIndexOf(n, '.');
    if k <= 0 then None else Some(n[k + 1..])
  }

  /** `Path::extension`: the extension of the file name, if there is one. */
  function Extension(p: string): Option<string>
  {
    match FileName(p)
    case None => None
    case Some(n) => NameExtension(n)
  }

  /** ASCII-only lower-casing of one character. */
  function LowerChar(c: char): (r: char)
    ensures 'A' <= c <= 'Z' ==> r as int == c as int + 32
    ensures !('A' <= c <= 'Z') ==> r == c
  {
    if 'A' <= c <= 'Z' then (c as int + 32) as char else c
  }

  /** ASCII-only `to_lowercase`. */
  function AsciiLower(s: string): (r: string)
    ensures |r| == |s|
    ensures forall i | 0 <= i < |s| :: r[i] == LowerChar(s[i])
  {
    if s == [] then [] else AsciiLower(s[..|s| - 1]) + [LowerChar(s[|s| - 1])]
  }

  /** `.extension().and_then(|s| s.to_str()).unwrap_or("").to_lowercase()`. */
  function LoweredExtension(p: string): string
  {
    AsciiLower(if Extension(p).Some? then Extension(p).value else "")
  }

  /** The filter of `scan_paths`: the lowered extension is on the allow-list. */
  predicate IsSupportedPath(p: string)
  {
    IsSupportedExtension(LoweredExtension(p))
  }

  /** Appending text without `c` does not move the last `c`. */
  lemma {:induction false} LastIndexOfAppend(a: string, b: string, c: char)
    requires c !in b
    ensures LastIndexOf(a + b, c) == LastIndexOf(a, c)
  {
    if b == [] {
      assert a + b == a;
    } else {
      assert (a + b)[..|a + b| - 1] == a + b[..|b| - 1];
      LastIndexOfAppend(a, b[..|b| - 1], c);
    }
  }

  /** What `Path::extension` returns: when there is an extension, the file
      name is a non-empty stem, a dot and the extension, which holds no dot
      and no separator; a name without a dot, or whose only dot leads, has none. */
  lemma ExtensionShape(p: string)
    ensures Extension(p).Some? ==>
              FileName(p).Some? &&
              var n, e := FileName(p).value, Extension(p).value;
              |e| + 1 < |n| && '.' !in e && Separator !in e &&
              n[|n| - |e| - 1] == '.' && e == n[|n| - |e|..]
    ensures FileName(p).Some? && '.' !in FileName(p).value ==> Extension(p).None?
    ensures (FileName(p).Some? && FileName(p).value[0] == '.' && '.' !in FileName(p).value[1..])
              ==> Extension(p).None?
  {
    if FileName(p).Some? {
      var n := FileName(p).value;
      ComponentHasNoSeparator(p);
      NameExtensionShape(n);
      if NameExtension(n).Some? {
        var e := NameExtension(n).value;
        assert Separator !in e by {
          forall i | 0 <= i < |e| ensures e[i] != Separator {
            assert e[i] == n[|n| - |e| + i];
          }
        }
      }
    }
  }

  /** The last component holds no separator. */
  lemma ComponentHasNoSeparator(p: string)
    ensures Separator !in LastComponent(p)
  {
  }

  /** The extension of a file name is the dot-free text after its last dot,
      behind a non-empty stem; a name without a dot, or whose only dot
      leads, has none. */
  lemma NameExtensionShape(n: string)
    ensures NameExtension(n).Some? ==>
              var e := NameExtension(n).value;
              |e| + 1 < |n| && '.' !in e && n[|n| - |e| - 1] == '.' && e == n[|n| - |e|..]
    ensures '.' !in n ==> NameExtension(n).None?
    ensures (n != [] && n[0] == '.' && '.' !in n[1..]) ==> NameExtension(n).None?
  {
    var k := LastIndexOf(n, '.');
    if n != [] && n[0] == '.' && '.' !in n[1..] {
      assert k <= 0;
    }
  }

  /** The last component of `dir + name` is `name` when `dir` is empty or
      ends in a separator and `name` is a single component. */
  lemma LastComponentOfJoin(dir: string, name: string)
    requires dir == [] || dir[|dir| - 1] == Separator
    requires name != [] && Separator !in name
    ensures LastComponent(dir + name) == name
  {
    var p := dir + name;
    assert p[|p| - 1] == name[|name| - 1];
    assert TrimTrailingSeparators(p) == p;
    LastIndexOfAppend(dir, name, Separator);
    if dir != [] {
      assert LastIndexOf(dir, Separator) == |dir| - 1;
    }
    assert p[|dir|..] == name;
  }

  /** The extension of the file name `stem + "." + e` is `e`. */
  lemma {:induction false} NameExtensionOfSplit(stem: string, e: string)
    requires stem != [] && '.' !in e
    ensures NameExtension(stem + "." + e) == Some(e)
  {
    var n := stem + "." + e;
    assert n == (stem + ".") + e;
    LastIndexOfAppend(stem + ".", e, '.');
    assert LastIndexOf(stem + ".", '.') == |stem|;
    assert n[|stem| + 1..] == e;
  }

  /** `stem + "." + e` is one component, and it is neither `.` nor `..`. */
  lemma SplitNameIsComponent(stem: string, e: string)
    requires stem != [] && Separator !in stem
    requires Separator !in e
    requires !(stem == "." && e == [])
    ensures Separator !in stem + "." + e
    ensures !IsDotComponent(stem + "." + e)
  {
    var name := stem + "." + e;
    assert name == stem + ("." + e);
    assert name[0] == stem[0] && name[|stem|] == '.';
    if e == [] && |stem| == 1 { assert stem == [stem[0]]; }
  }

  /** `Path::extension` of `dir + stem + "." + e` is `e` whenever `e` holds
      neither dot nor separator and `stem` is a non-empty file-name prefix. */
  lemma ExtensionOfName(dir: string, stem: string, e: string)
    requires dir == [] || dir[|dir| - 1] == Separator
    requires stem != [] && Separator !in stem
    requires Separator !in e && '.' !in e
    requires !(stem == "." && e == [])
    ensures FileName(dir + stem + "." + e) == Some(stem + "." + e)
    ensures Extension(dir + stem + "." + e) == Some(e)
  {
    var name := stem + "." + e;
    assert dir + stem + "." + e == dir + name;
    SplitNameIsComponent(stem, e);
    LastComponentOfJoin(dir, name);
    NameExtensionOfSplit(stem, e);
  }

  /** A file is kept exactly when its extension, lowered, is on the
      allow-list; case does not matter. */
  lemma SupportedAnyCase(dir: string, stem: string, e: string)
    requires dir == [] || dir[|dir| - 1] == Separator
    requires stem != [] && Separator !in stem
    requires Separator !in e && '.' !in e
    requires !(stem == "." && e == [])
    ensures IsSupportedPath(dir + stem + "." + e) <==> IsSupportedExtension(AsciiLower(e))
  {
    ExtensionOfName(dir, stem, e);
  }

  /** `AsciiLower` maps each of these spellings onto the allow-list or off it. */
  lemma LoweredSpellings()
    ensures AsciiLower("PNG") == "png"
    ensures AsciiLower("txt") == "txt"
  {
    assert AsciiLower("PNG") == "png";
  }

  /** Upper-case extensions are kept: every `*.PNG` file passes the filter. */
  lemma UpperCaseKept(dir: string, stem: string)
    requires dir == [] || dir[|dir| - 1] == Separator
    requires stem != [] && Separator !in stem
    ensures IsSupportedPath(dir + stem + "." + "PNG")
  {
    SupportedAnyCase(dir, stem, "PNG");
    LoweredSpellings();
  }

  /** Other extensions are never kept: no `*.txt` file passes the filter. */
  lemma OtherExtensionDropped(dir: string, stem: string)
    requires dir == [] || dir[|dir| - 1] == Separator
    requires stem != [] && Separator !in stem
    ensures !IsSupportedPath(dir + stem + "." + "txt")
  {
    SupportedAnyCase(dir, stem, "txt");
    LoweredSpellings();
  }

  /** A path without an extension is never kept. */
  lemma NoExtensionNotSupported(p: string)
    requires Extension(p).None?
    ensures !IsSupportedPath(p)
  {
    assert LoweredExtension(p) == "";
  }

  /** A leading-dot name with no other dot is one component with no extension. */
  lemma LeadingDotName(e: string)
    requires e != [] && Separator !in e && '.' !in e
    ensures Separator !in "." + e && !IsDotComponent("." + e)
    ensures NameExtension("." + e).None?
  {
    var name := "." + e;
    assert name[1] == e[0];
    LastIndexOfAppend(".", e, '.');
  }

  /** A name whose only dot is the leading one has no extension, so a
      hidden file such as `.png` is not kept. */
  lemma LeadingDotDropped(dir: string, e: string)
    requires dir == [] || dir[|dir| - 1] == Separator
    requires e != [] && Separator !in e && '.' !in e
    ensures Extension(dir + "." + e).None? && !IsSupportedPath(dir + "." + e)
  {
    var name := "." + e;
    assert dir + "." + e == dir + name;
    LeadingDotName(e);
    LastComponentOfJoin(dir, name);
    NoExtensionNotSupported(dir + name);
  }
}
