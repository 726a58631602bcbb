/**
 * Choosing a collision-free upload path (back-end/utils.py,
 * `get_timestamped_filepath`). The clock reading is the `timestamp` parameter
 * and the file system's `os.path.exists` is membership in `existing`.
 */
module Utils {

  /** `str.rfind` for one character: the last index holding `c`, or -1. */
  function RFind(s: string, c: char): (r: int)
    ensures -1 <= r < |s|
    ensures r >= 0 ==> s[r] == c
    ensures forall j :: r < j < |s| ==> s[j] != c
    decreases |s|
  {
    if s == [] then -1
    else if s[|s| - 1] == c then |s| - 1
    else RFind(s[..|s| - 1], c)
  }

  /** `RFind` is pinned down by where `c` last occurs. */
  lemma RFindAt(s: string, c: char, i: int)
    requires -1 <= i < |s|
    requires i >= 0 ==> s[i] == c
    requires forall j :: i < j < |s| ==> s[j] != c
    ensures RFind(s, c) == i
  {
  }

  /** The last path component: everything after the last '/'. */
  function FinalComponent(p: string): string
  {
    p[RFind(p, '/') + 1..]
  }

  /** A name has an extension when some dot in it follows a character that is not a dot. */
  predicate HasExtension(name: string)
  {
    exists k, j :: 0 <= k < j < |name| && name[k] != '.' && name[j] == '.'
  }

  /**
   * `os.path.splitext` on POSIX paths: the extension runs from the last dot of
   * the final component to the end, unless that component has no dot or only
   * leading dots, in which case it is empty.
   */
  function SplitExt(p: string): (r: (string, string))
    ensures r.0 + r.1 == p
    ensures r.1 != [] ==> r.1[0] == '.' && '.' !in r.1[1..] && '/' !in r.1
    ensures r.1 != [] <==> HasExtension(FinalComponent(p))
  {
    var sepIndex := RFind(p, '/');
    var dotIndex := RFind(p, '.');
    if dotIndex > sepIndex && exists j :: sepIndex + 1 <= j < dotIndex && p[j] != '.' then
      var r := (p[..dotIndex], p[dotIndex..]);
      assert HasExtension(FinalComponent(p)) by {
        var j :| sepIndex + 1 <= j < dotIndex && p[j] != '.';
        var c := FinalComponent(p);
        assert c[j - (sepIndex + 1)] == p[j] && c[dotIndex - (sepIndex + 1)] == p[dotIndex];
      }
      r
    else
      assert !HasExtension(FinalComponent(p));
      (p, "")
  }

  function DigitChar(d: nat): (c: char)
    requires d < 10
    ensures '0' <= c <= '9'
  {
    ('0' as int + d) as char
  }

  /** Decimal digits of a natural number, no leading zeros (`str(n)`). */
  function NatToString(n: nat): (r: string)
    ensures |r| >= 1 && (n >= 10 <==> |r| >= 2)
    ensures forall i :: 0 <= i < |r| ==> '0' <= r[i] <= '9'
    decreases n
  {
    if n < 10 then [DigitChar(n)] else NatToString(n / 10) + [DigitChar(n % 10)]
  }

  /** Different numbers have different decimal forms. */
  lemma {:induction false} NatToStringInjective(a: nat, b: nat)
    requires NatToString(a) == NatToString(b)
    ensures a == b
    decreases a
  {
    if a >= 10 && b >= 10 {
      var sa, sb := NatToString(a), NatToString(b);
      assert sa[..|sa| - 1] == NatToString(a / 10);
      assert sb[..|sb| - 1] == NatToString(b / 10);
      NatToStringInjective(a / 10, b / 10);
      assert DigitChar(a % 10) == sa[|sa| - 1] == sb[|sb| - 1] == DigitChar(b % 10);
    }
  }

  /** `str(i)` for any integer. */
  function IntToString(i: int): (r: string)
    ensures |r| >= 1 && r[0] != '/'
  {
    if i < 0 then "-" + NatToString(-i) else NatToString(i)
  }

  /** The separator `os.path.join` puts between a directory and a relative name. */
  function Separator(directory: string): string
  {
    if directory == "" || directory[|directory| - 1] == '/' then "" else "/"
  }

  /** `os.path.join(directory, name)` on POSIX: an absolute name replaces the directory. */
  function Join(directory: string, name: string): string
  {
    if name != [] && name[0] == '/' then name
    else directory + Separator(directory) + name
  }

  /**
   * What a join looks like: an absolute name is the result; a relative one
   * ends the result, after the directory and at most one added character,
   * and is preceded by a '/' whenever the directory is not empty.
   */
  lemma JoinShape(directory: string, name: string)
    ensures name != [] && name[0] == '/' ==> Join(directory, name) == name
    ensures name == [] || name[0] != '/' ==>
      var r := Join(directory, name);
      && directory <= r
      && |directory| + |name| <= |r| <= |directory| + |name| + 1
      && r[|r| - |name|..] == name
      && (directory != [] ==> r[|r| - |name| - 1] == '/')
  {
    if name == [] || name[0] != '/' {
      var sep := Separator(directory);
      var r := directory + sep + name;
      assert r[|r| - |name|..] == name;
      if directory != [] {
        assert r[|r| - |name| - 1] == if sep == "" then directory[|directory| - 1] else sep[0];
      }
    }
  }

  /** Joining one directory with two different relative names gives two different paths. */
  lemma JoinInjective(directory: string, a: string, b: string)
    requires a != [] && a[0] != '/' && b != [] && b[0] != '/'
    requires Join(directory, a) == Join(directory, b)
    ensures a == b
  {
    var prefix := directory + Separator(directory);
    assert Join(directory, a)[|prefix|..] == a;
    assert Join(directory, b)[|prefix|..] == b;
  }

  /** Candidate file name number `counter`: `<ts>_<base><ext>` for 0, `<ts>_<base>_<counter><ext>` after that. */
  function CandidateName(timestamp: int, base: string, ext: string, counter: nat): (r: string)
    ensures IntToString(timestamp) <= r
    ensures |r| >= |ext| && r[|r| - |ext|..] == ext
  {
    if counter == 0 then IntToString(timestamp) + "_" + base + ext
    else IntToString(timestamp) + "_" + base + "_" + NatToString(counter) + ext
  }

  function CandidatePath(directory: string, timestamp: int, base: string, ext: string, counter: nat): string
  {
    Join(directory, CandidateName(timestamp, base, ext, counter))
  }

  /** Distinct counters give distinct candidate paths. */
  lemma CandidatesDistinct(directory: string, timestamp: int, base: string, ext: string, a: nat, b: nat)
    requires a != b
    ensures CandidatePath(directory, timestamp, base, ext, a) != CandidatePath(directory, timestamp, base, ext, b)
  {
    var na, nb := CandidateName(timestamp, base, ext, a), CandidateName(timestamp, base, ext, b);
    var ts := IntToString(timestamp);
    assert na[0] == ts[0] && nb[0] == ts[0];
    if CandidatePath(directory, timestamp, base, ext, a) == CandidatePath(directory, timestamp, base, ext, b) {
      JoinInjective(directory, na, nb);
      if a != 0 && b != 0 {
        var prefix := ts + "_" + base + "_";
        var sa, sb := NatToString(a), NatToString(b);
        assert na == prefix + sa + ext;
        assert nb == prefix + sb + ext;
        assert |sa| == |sb|;
        assert na[|prefix|..|prefix| + |sa|] == sa;
        assert nb[|prefix|..|prefix| + |sb|] == sb;
        NatToStringInjective(a, b);
      }
    }
  }

  /** Candidates 0 .. n-1 all exist already. */
  predicate AllTaken(directory: string, timestamp: int, base: string, ext: string, existing: set<string>, n: nat)
  {
    forall k: nat :: k < n ==> CandidatePath(directory, timestamp, base, ext, k) in existing
  }

  /** The candidates tried before number `n`. */
  function Tried(directory: string, timestamp: int, base: string, ext: string, n: nat): set<string>
  {
    set k: nat | k < n :: CandidatePath(directory, timestamp, base, ext, k)
  }

  /** Candidate `n` is none of the earlier ones, so trying it adds one path to those tried. */
  lemma TriedGrows(directory: string, timestamp: int, base: string, ext: string, n: nat)
    requires |Tried(directory, timestamp, base, ext, n)| == n
    ensures Tried(directory, timestamp, base, ext, n + 1)
      == Tried(directory, timestamp, base, ext, n) + {CandidatePath(directory, timestamp, base, ext, n)}
    ensures |Tried(directory, timestamp, base, ext, n + 1)| == n + 1
  {
    var c := CandidatePath(directory, timestamp, base, ext, n);
    var before, after := Tried(directory, timestamp, base, ext, n), Tried(directory, timestamp, base, ext, n + 1);
    forall k: nat | k < n
      ensures CandidatePath(directory, timestamp, base, ext, k) != c
    {
      CandidatesDistinct(directory, timestamp, base, ext, k, n);
    }
    assert c !in before;
    forall x | x in after
      ensures x in before + {c}
    {
      var k: nat :| k < n + 1 && x == CandidatePath(directory, timestamp, base, ext, k);
      if k < n {
        assert x in before;
      }
    }
    assert after == before + {c};
  }

  /** Every candidate path lies under the directory and ends with the extension. */
  lemma CandidateShape(directory: string, timestamp: int, base: string, ext: string, n: nat)
    ensures directory <= CandidatePath(directory, timestamp, base, ext, n)
    ensures var p := CandidatePath(directory, timestamp, base, ext, n); |p| >= |ext| && p[|p| - |ext|..] == ext
  {
    var name := CandidateName(timestamp, base, ext, n);
    JoinShape(directory, name);
    var p := Join(directory, name);
    assert p[|p| - |ext|..] == p[|p| - |name|..][|name| - |ext|..];
  }

  /**
   * The upload path for `originalFilename`: the first of the candidates
   * `<ts>_<base><ext>`, `<ts>_<base>_1<ext>`, `<ts>_<base>_2<ext>`, ... that
   * does not exist. It is found after at most |existing| + 1 checks.
   */
  method GetTimestampedFilepath(directory: string, originalFilename: string, timestamp: int, existing: set<string>)
    returns (filePath: string)
    ensures filePath !in existing
    ensures exists n: nat :: (n <= |existing| &&
      filePath == CandidatePath(directory, timestamp, SplitExt(originalFilename).0, SplitExt(originalFilename).1, n) &&
      AllTaken(directory, timestamp, SplitExt(originalFilename).0, SplitExt(originalFilename).1, existing, n))
  {
    var (base, extension) := SplitExt(originalFilename);
    var timestampedFilename := CandidateName(timestamp, base, extension, 0);
    filePath := Join(directory, timestampedFilename);
    var counter := 1;
    while filePath in existing
      invariant counter >= 1
      invariant filePath == CandidatePath(directory, timestamp, base, extension, counter - 1)
      invariant Tried(directory, timestamp, base, extension, counter - 1) <= existing
      invariant |Tried(directory, timestamp, base, extension, counter - 1)| == counter - 1
      decreases |existing| - (counter - 1)
    {
      ghost var next := Tried(directory, timestamp, base, extension, counter);
      assert next == Tried(directory, timestamp, base, extension, counter - 1) + {filePath} && |next| == counter by {
        TriedGrows(directory, timestamp, base, extension, counter - 1);
      }
      SubsetCard(next, existing);
      timestampedFilename := CandidateName(timestamp, base, extension, counter);
      filePath := Join(directory, timestampedFilename);
      counter := counter + 1;
    }
    SubsetCard(Tried(directory, timestamp, base, extension, counter - 1), existing);
    assert AllTaken(directory, timestamp, base, extension, existing, counter - 1) by {
      forall k: nat | k < counter - 1
        ensures CandidatePath(directory, timestamp, base, extension, k) in existing
      {
        assert CandidatePath(directory, timestamp, base, extension, k) in Tried(directory, timestamp, base, extension, counter - 1);
      }
    }
  }

  lemma SubsetCard<T>(a: set<T>, b: set<T>)
    requires a <= b
    ensures |a| <= |b|
  {
    assert b == a + (b - a);
  }

  /**
   * A path whose base starts with a non-dot character and whose extension is
   * one dot followed by no other dot, with no '/' anywhere, splits into that
   * base and that extension.
   */
  lemma SplitExtOf(base: string, ext: string)
    requires base != [] && base[0] != '.'
    requires ext != [] && ext[0] == '.' && '.' !in ext[1..]
    requires '/' !in base + ext
    ensures SplitExt(base + ext) == (base, ext)
  {
    var p := base + ext;
    var i := |base|;
    assert RFind(p, '.') == i by {
      forall j | i < j < |p|
        ensures p[j] != '.'
      {
        assert p[j] == ext[1..][j - i - 1];
      }
      RFindAt(p, '.', i);
    }
    assert RFind(p, '/') == -1 by {
      RFindAt(p, '/', -1);
    }
    SplitExtAt(p, i);
    assert p[..i] == base && p[i..] == ext;
  }

  /** With no '/' and the last dot at `i`, after a non-dot first character, the split is at `i`. */
  lemma SplitExtAt(p: string, i: int)
    requires 0 < i < |p| && p[0] != '.'
    requires RFind(p, '.') == i && RFind(p, '/') == -1
    ensures SplitExt(p) == (p[..i], p[i..])
  {
    assert exists j :: RFind(p, '/') + 1 <= j < RFind(p, '.') && p[j] != '.' by {
      assert RFind(p, '/') + 1 <= 0 < RFind(p, '.') && p[0] != '.';
    }
  }

  lemma SplitExtMyfile()
    ensures SplitExt("myfile.txt") == ("myfile", ".txt")
  {
    SplitExtOf("myfile", ".txt");
    assert "myfile" + ".txt" == "myfile.txt";
  }

  lemma SplitExtReport()
    ensures SplitExt("report.docx") == ("report", ".docx")
  {
    SplitExtOf("report", ".docx");
    assert "report" + ".docx" == "report.docx";
  }

  lemma SplitExtData()
    ensures SplitExt("data.csv") == ("data", ".csv")
  {
    SplitExtOf("data", ".csv");
    assert "data" + ".csv" == "data.csv";
  }

  /** Only leading dots: no extension. */
  lemma SplitExtDotfile()
    ensures SplitExt(".bashrc") == (".bashrc", "")
  {
    var p := ".bashrc";
    RFindAt(p, '.', 0);
    RFindAt(p, '/', -1);
  }

  lemma TimestampDigits()
    ensures IntToString(1678886400) == "1678886400"
  {
    assert NatToString(1) == "1";
    assert NatToString(16) == "16";
    assert NatToString(167) == "167";
    assert NatToString(1678) == "1678";
    assert NatToString(16788) == "16788";
    assert NatToString(167888) == "167888";
    assert NatToString(1678886) == "1678886";
    assert NatToString(16788864) == "16788864";
    assert NatToString(167888640) == "167888640";
  }

  lemma PairCard<T>(a: T, b: T)
    ensures |{a, b}| <= 2
  {
  }

  /** The name the first test expects: `1678886400_myfile.txt`. */
  lemma MyfileName()
    ensures CandidateName(1678886400, "myfile", ".txt", 0) == "1678886400_myfile.txt"
  {
    TimestampDigits();
  }

  /** A numbered candidate name spelled out from the decimal forms of the timestamp and the counter. */
  lemma CandidateNameText(timestamp: int, base: string, ext: string, counter: nat, tsText: string, counterText: string)
    requires counter > 0 && IntToString(timestamp) == tsText && NatToString(counter) == counterText
    ensures CandidateName(timestamp, base, ext, counter) == tsText + "_" + base + "_" + counterText + ext
  {
  }

  /** The name the collision test expects after one clash: `1678886400_report_1.docx`. */
  lemma ReportName()
    ensures CandidateName(1678886400, "report", ".docx", 1) == "1678886400_report_1.docx"
  {
    TimestampDigits();
    assert NatToString(1) == "1";
    CandidateNameText(1678886400, "report", ".docx", 1, "1678886400", "1");
    ReportText();
  }

  lemma ReportText()
    ensures "1678886400" + "_" + "report" + "_" + "1" + ".docx" == "1678886400_report_1.docx"
  {
  }

  /** The name the collision test expects after two clashes: `1678886400_data_2.csv`. */
  lemma DataName()
    ensures CandidateName(1678886400, "data", ".csv", 2) == "1678886400_data_2.csv"
  {
    TimestampDigits();
    assert NatToString(2) == "2";
    CandidateNameText(1678886400, "data", ".csv", 2, "1678886400", "2");
    DataText();
  }

  lemma DataText()
    ensures "1678886400" + "_" + "data" + "_" + "2" + ".csv" == "1678886400_data_2.csv"
  {
  }

  /** back-end/tests/test_utils.py: no file exists, so the plain name is used. */
  method NoCollisionScenario(directory: string) returns (p: string)
    ensures p == Join(directory, "1678886400_myfile.txt")
  {
    SplitExtMyfile();
    MyfileName();
    p := GetTimestampedFilepath(directory, "myfile.txt", 1678886400, {});
  }

  /** back-end/tests/test_utils.py: the plain name exists, so number 1 is used. */
  method OneCollisionScenario(directory: string) returns (p: string)
    ensures p == Join(directory, "1678886400_report_1.docx")
  {
    var timestamp := 1678886400;
    SplitExtReport();
    ReportName();
    var first := CandidatePath(directory, timestamp, "report", ".docx", 0);
    p := GetTimestampedFilepath(directory, "report.docx", timestamp, {first});
    ghost var n: nat :| n <= 1 && p == CandidatePath(directory, timestamp, "report", ".docx", n);
    assert n == 1;
    assert p == CandidatePath(directory, timestamp, "report", ".docx", n);
  }

  /** back-end/tests/test_utils.py: the plain name and number 1 exist, so number 2 is used. */
  method TwoCollisionsScenario(directory: string) returns (p: string)
    ensures p == Join(directory, "1678886400_data_2.csv")
  {
    var timestamp := 1678886400;
    SplitExtData();
    DataName();
    var first := CandidatePath(directory, timestamp, "data", ".csv", 0);
    var second := CandidatePath(directory, timestamp, "data", ".csv", 1);
    p := GetTimestampedFilepath(directory, "data.csv", timestamp, {first, second});
    ghost var n: nat :| n <= |{first, second}| && p == CandidatePath(directory, timestamp, "data", ".csv", n);
    PairCard(first, second);
    assert n != 0 && n != 1;
    assert n == 2;
  }
}
