/** `OSUtilities.determineOS`: classify an `os.name` string by looking,
    after lower-casing it, for the keywords "windows", "mac", "linux" and
    "unix", in that priority order. The property value is a parameter. */
module OSUtilities {

  datatype OS = Windows | Mac | Linux | Unix | Unknown

  /** Lower-casing of one character, restricted to ASCII letters. */
  function ToLowerChar(c: char): char
  {
    if 'A' <= c <= 'Z' then (c as int + ('a' as int - 'A' as int)) as char else c
  }

  function ToUpperChar(c: char): char
  {
    if 'a' <= c <= 'z' then (c as int - ('a' as int - 'A' as int)) as char else c
  }

  /** `String.toLowerCase`, character by character. */
  function ToLower(s: string): (r: string)
    ensures |r| == |s|
    ensures forall i :: 0 <= i < |s| ==> r[i] == ToLowerChar(s[i])
  {
    if |s| == 0 then "" else [ToLowerChar(s[0])] + ToLower(s[1..])
  }

  function ToUpper(s: string): (r: string)
    ensures |r| == |s|
    ensures forall i :: 0 <= i < |s| ==> r[i] == ToUpperChar(s[i])
  {
    if |s| == 0 then "" else [ToUpperChar(s[0])] + ToUpper(s[1..])
  }

  /** `sub` occurs in `s` starting at position `i`. */
  predicate OccursAt(s: string, sub: string, i: nat)
  {
    i + |sub| <= |s| && s[i..i + |sub|] == sub
  }

  /** `sub` occurs in `s` starting at some position. */
  ghost predicate Occurs(s: string, sub: string)
  {
    exists i: nat :: OccursAt(s, sub, i)
  }

  /** `String.contains`: a scan of the starting positions of `s`. */
  function Contains(s: string, sub: string): (r: bool)
    ensures r <==> Occurs(s, sub)
    decreases |s|
  {
    if |sub| > |s| then
      assert forall i: nat :: !OccursAt(s, sub, i);
      false
    else if s[..|sub|] == sub then
      assert OccursAt(s, sub, 0);
      true
    else
      var r := Contains(s[1..], sub);
      assert r ==> Occurs(s, sub) by {
        if r {
          var i: nat :| OccursAt(s[1..], sub, i);
          assert s[i + 1..i + 1 + |sub|] == s[1..][i..i + |sub|];
          assert OccursAt(s, sub, i + 1);
        }
      }
      assert Occurs(s, sub) ==> r by {
        if Occurs(s, sub) {
          var i: nat :| OccursAt(s, sub, i);
          assert i != 0;
          assert s[1..][i - 1..i - 1 + |sub|] == s[i..i + |sub|];
          assert OccursAt(s[1..], sub, i - 1);
        }
      }
      r
  }

  /** The keyword that identifies each known system. */
  function Keyword(os: OS): string
    requires os != Unknown
  {
    match os
    case Windows => "windows"
    case Mac => "mac"
    case Linux => "linux"
    case Unix => "unix"
  }

  /** Position in the order the keywords are tried; `Unknown` comes last. */
  function Rank(os: OS): nat
  {
    match os
    case Windows => 0
    case Mac => 1
    case Linux => 2
    case Unix => 3
    case Unknown => 4
  }

  /** `determineOS` with `os.name` as the parameter `osName`. The result is
      the first system, in priority order, whose keyword occurs in the
      lower-cased name; `Unknown` when none does. */
  function DetermineOS(osName: string): (r: OS)
    ensures r != Unknown ==> Occurs(ToLower(osName), Keyword(r))
    ensures forall o :: o != Unknown && Rank(o) < Rank(r) ==> !Occurs(ToLower(osName), Keyword(o))
  {
    var os := ToLower(osName);
    if Contains(os, "windows") then Windows
    else if Contains(os, "mac") then Mac
    else if Contains(os, "linux") then Linux
    else if Contains(os, "unix") then Unix
    else Unknown
  }

  /** `os` is the first system, in priority order, whose keyword occurs in
      the lower-cased name `l` (`Unknown`: no keyword occurs). */
  ghost predicate IsFirstMatch(l: string, os: OS)
  {
    && (os != Unknown ==> Occurs(l, Keyword(os)))
    && forall o :: o != Unknown && Rank(o) < Rank(os) ==> !Occurs(l, Keyword(o))
  }

  /** The classification is exactly the first match: `determineOS` returns
      it, and no other value is a first match. */
  lemma FirstMatchIsDetermineOS(osName: string, os: OS)
    ensures IsFirstMatch(ToLower(osName), os) <==> os == DetermineOS(osName)
  {
  }

  lemma {:induction false} ToLowerIdempotent(s: string)
    ensures ToLower(ToLower(s)) == ToLower(s)
  {
    var l := ToLower(s);
    var ll := ToLower(l);
    assert forall i :: 0 <= i < |s| ==> ll[i] == ToLowerChar(ToLowerChar(s[i]));
    assert forall i :: 0 <= i < |s| ==> ll[i] == l[i];
  }

  /** Lower-casing an upper-cased character gives its lower-case form. */
  lemma LowerOfUpperChar(c: char)
    ensures ToLowerChar(ToUpperChar(c)) == ToLowerChar(c)
  {
    if 'a' <= c <= 'z' {
      assert 'A' <= ToUpperChar(c) <= 'Z';
    }
  }

  lemma {:induction false} ToLowerOfUpper(s: string)
    ensures ToLower(ToUpper(s)) == ToLower(s)
  {
    var u := ToUpper(s);
    var lu := ToLower(u);
    var l := ToLower(s);
    forall i | 0 <= i < |s| ensures lu[i] == l[i] {
      assert lu[i] == ToLowerChar(u[i]);
      LowerOfUpperChar(s[i]);
    }
  }

  /** The classification depends on the name only through its lower-cased
      form: lower-casing or upper-casing the name first changes nothing. */
  lemma CaseInsensitive(osName: string)
    ensures DetermineOS(ToLower(osName)) == DetermineOS(osName)
    ensures DetermineOS(ToUpper(osName)) == DetermineOS(osName)
  {
    ToLowerIdempotent(osName);
    ToLowerOfUpper(osName);
  }

  /** The keywords are searched for anywhere in the name, not only as a
      prefix or as the whole name. */
  lemma {:induction false} KeywordAnywhere(prefix: string, os: OS, suffix: string)
    requires os != Unknown
    ensures Rank(DetermineOS(prefix + Keyword(os) + suffix)) <= Rank(os)
  {
    var name := prefix + Keyword(os) + suffix;
    var k := Keyword(os);
    var l := ToLower(name);
    assert ToLower(k) == k by {
      assert forall i :: 0 <= i < |k| ==> ToLowerChar(k[i]) == k[i];
    }
    assert l[|prefix|..|prefix| + |k|] == k by {
      forall i | 0 <= i < |k| ensures l[|prefix| + i] == k[i] {
        assert name[|prefix| + i] == k[i];
      }
    }
    assert OccursAt(l, k, |prefix|);
  }

  /** A name naming no known system, such as "SunOS" or the empty string,
      is `Unknown`. */
  lemma UnknownNames()
    ensures DetermineOS("SunOS") == Unknown
    ensures DetermineOS("") == Unknown
  {
    var l := ToLower("SunOS");
    assert l == "sunos";
    assert !Occurs(l, "mac") by {
      forall i: nat ensures !OccursAt(l, "mac", i) {
        if i + 3 <= |l| {
          assert l[i..i + 3][0] != 'm';
        }
      }
    }
    assert !Occurs(l, "linux") by {
      forall i: nat ensures !OccursAt(l, "linux", i) {
        if i + 5 <= |l| {
          assert l[i..i + 5][0] != 'l';
        }
      }
    }
    assert !Occurs(l, "unix") by {
      forall i: nat ensures !OccursAt(l, "unix", i) {
        if i + 4 <= |l| {
          if i == 0 {
            assert l[i..i + 4][0] != 'u';
          } else {
            assert l[i..i + 4][2] != 'i';
          }
        }
      }
    }
  }

  /** Upper- and mixed-case spellings of Windows are `Windows`. */
  lemma WindowsNames(name: string)
    requires name == "Windows 10" || name == "WINDOWS"
    ensures DetermineOS(name) == Windows
  {
    var l := ToLower(name);
    assert l[..7] == "windows" by {
      forall k | 0 <= k < 7 ensures l[k] == "windows"[k] {
        assert l[k] == ToLowerChar(name[k]);
      }
    }
    assert OccursAt(l, "windows", 0);
  }

  /** "Mac OS X" is `Mac`: "mac" matches as a prefix, "windows" nowhere. */
  lemma MacName(name: string)
    requires name == "Mac OS X"
    ensures DetermineOS(name) == Mac
  {
    var l := ToLower(name);
    assert l[..3] == "mac" by {
      forall k | 0 <= k < 3 ensures l[k] == "mac"[k] {
        assert l[k] == ToLowerChar(name[k]);
      }
    }
    assert OccursAt(l, "mac", 0);
    assert !Occurs(l, "windows") by {
      forall i: nat ensures !OccursAt(l, "windows", i) {
        if i + 7 <= |l| {
          assert l[i] == ToLowerChar(name[i]);
          assert l[i..i + 7][0] != 'w';
        }
      }
    }
  }

  /** "Linux" is `Linux`. */
  lemma LinuxName()
    ensures DetermineOS("Linux") == Linux
  {
    var l := ToLower("Linux");
    assert l == "linux";
    assert OccursAt(l, "linux", 0);
    assert !Occurs(l, "mac") by {
      forall i: nat ensures !OccursAt(l, "mac", i) {
        if i + 3 <= |l| {
          assert l[i..i + 3][0] != 'm';
        }
      }
    }
  }

  /** A name containing both "mac" and "linux" is `Mac`, since "mac" is
      tried first. */
  lemma MacBeforeLinux(prefix: string, middle: string, suffix: string)
    requires !Occurs(ToLower(prefix + "mac" + middle + "linux" + suffix), "windows")
    ensures DetermineOS(prefix + "mac" + middle + "linux" + suffix) == Mac
  {
    var name := prefix + "mac" + middle + "linux" + suffix;
    assert name == prefix + Keyword(Mac) + (middle + "linux" + suffix);
    KeywordAnywhere(prefix, Mac, middle + "linux" + suffix);
  }
}
