/** The receiver's checks on an incoming file name (Receiver.isValidFileName) and the renaming
    that avoids overwriting a file already in the save directory (Receiver.getUniqueFile). */
module FileNames {
  import opened Wrappers
  import opened Text

  /** The characters the pattern ^[^<>:"\\|?*]+$ excludes. */
  predicate IsReservedChar(c: char)
  {
    c == '<' || c == '>' || c == ':' || c == '"' || c == '\\' || c == '|' || c == '?' || c == '*'
  }

  predicate IsValidFileName(name: string)
  {
    && |name| > 0
    && !HasDotDot(name)
    && '/' !in name
    && '\\' !in name
    && forall i :: 0 <= i < |name| ==> !IsReservedChar(name[i])
  }

  /** Rejected names: the empty name and any name holding "..", a path separator or a reserved
      character. Every other name is accepted. */
  lemma ValidFileNameExactly(name: string)
    ensures !IsValidFileName(name) <==>
      || name == []
      || HasDotDot(name)
      || (exists i :: 0 <= i < |name| && (name[i] == '/' || IsReservedChar(name[i])))
  {
    if '/' in name {
      var i :| 0 <= i < |name| && name[i] == '/';
    }
  }

  /** Errors the renaming can raise. */
  datatype RenameError = NoExtension

  /** name.replaceFirst("[.][^.]+$", ""): the name without its last dot and what follows it,
      provided at least one character follows that dot. */
  function BaseName(name: string): (r: string)
    ensures LastIndexOf(name, '.') == -1 || LastIndexOf(name, '.') == |name| - 1 ==> r == name
    ensures 0 <= LastIndexOf(name, '.') < |name| - 1 ==> r == name[..LastIndexOf(name, '.')]
  {
    var d := LastIndexOf(name, '.');
    if 0 <= d < |name| - 1 then name[..d] else name
  }

  /** name.substring(name.lastIndexOf('.')): defined only when the name holds a dot. */
  function Extension(name: string): (r: string)
    requires LastIndexOf(name, '.') >= 0
    ensures |r| >= 1 && r[0] == '.' && '.' !in r[1..]
    ensures |r| <= |name| && name[|name| - |r|..] == r
  {
    var d := LastIndexOf(name, '.');
    var r := name[d..];
    assert forall j :: 1 <= j < |r| ==> r[j] == name[d + j];
    r
  }

  /** The k-th name getUniqueFile tries: base + "_" + k + extension. */
  function Candidate(name: string, k: nat): string
    requires LastIndexOf(name, '.') >= 0
  {
    BaseName(name) + "_" + Decimal(k) + Extension(name)
  }

  lemma CandidateInjective(name: string, j: nat, k: nat)
    requires LastIndexOf(name, '.') >= 0
    requires Candidate(name, j) == Candidate(name, k)
    ensures j == k
  {
    var b, e := BaseName(name), Extension(name);
    var x := Candidate(name, j);
    assert Decimal(j) == x[|b| + 1..|x| - |e|];
    assert Decimal(k) == x[|b| + 1..|x| - |e|];
    DecimalInjective(j, k);
  }

  /** f(1), ..., f(count - 1). */
  function ImageBelow<T>(f: nat -> T, count: nat): set<T>
  {
    if count <= 1 then {} else ImageBelow(f, count - 1) + {f(count - 1)}
  }

  lemma {:induction false} ImageBelowFacts<T>(f: nat -> T, count: nat)
    requires forall a: nat, b: nat :: f(a) == f(b) ==> a == b
    ensures forall x :: x in ImageBelow(f, count) ==> exists j :: 1 <= j < count && x == f(j)
    ensures |ImageBelow(f, count)| == if count <= 1 then 0 else count - 1
  {
    if count > 1 {
      ImageBelowFacts(f, count - 1);
      var prev, x := ImageBelow(f, count - 1), f(count - 1);
      assert forall j :: 1 <= j < count - 1 ==> f(j) != x;
      assert x !in prev;
      assert |prev + {x}| == |prev| + 1;
    }
  }

  /** Every name tried before the count-th is in use. */
  predicate TakenBelow(name: string, existing: set<string>, count: nat)
    requires LastIndexOf(name, '.') >= 0
  {
    forall j :: 1 <= j < count ==> Candidate(name, j) in existing
  }

  /** The candidates are distinct, so no more of them can be in use than there are names. */
  lemma TakenBelowBound(name: string, existing: set<string>, count: nat)
    requires LastIndexOf(name, '.') >= 0 && count >= 1 && TakenBelow(name, existing, count)
    ensures count - 1 <= |existing|
  {
    var f := (k: nat) => Candidate(name, k);
    forall a: nat, b: nat | f(a) == f(b) ensures a == b {
      CandidateInjective(name, a, b);
    }
    ImageBelowFacts(f, count);
    SubsetSize(ImageBelow(f, count), existing);
  }

  /** The do-while of getUniqueFile from the count-th candidate on. */
  function UniqueFrom(name: string, existing: set<string>, count: nat): (r: string)
    requires LastIndexOf(name, '.') >= 0 && count >= 1 && TakenBelow(name, existing, count)
    decreases |existing| + 1 - count
  {
    TakenBelowBound(name, existing, count);
    var candidate := Candidate(name, count);
    if candidate !in existing then candidate
    else
      TakenBelowBound(name, existing, count + 1);
      UniqueFrom(name, existing, count + 1)
  }

  /** getUniqueFile over the set of names already in the save directory. */
  function UniqueName(name: string, existing: set<string>): (r: Result<string, RenameError>)
  {
    if name !in existing then Success(name)
    else if LastIndexOf(name, '.') == -1 then Failure(NoExtension)
    else Success(UniqueFrom(name, existing, 1))
  }

  lemma {:induction false} UniqueFromMeaning(name: string, existing: set<string>, count: nat)
    requires LastIndexOf(name, '.') >= 0 && count >= 1 && TakenBelow(name, existing, count)
    ensures exists k ::
      k >= count && UniqueFrom(name, existing, count) == Candidate(name, k) && TakenBelow(name, existing, k)
    ensures UniqueFrom(name, existing, count) !in existing
    decreases |existing| + 1 - count
  {
    TakenBelowBound(name, existing, count);
    if Candidate(name, count) in existing {
      TakenBelowBound(name, existing, count + 1);
      UniqueFromMeaning(name, existing, count + 1);
    }
  }

  /** An unused name is kept; a used name without a dot has no extension for substring(-1) and
      fails; otherwise the result is the first of base_1ext, base_2ext, ... not in use. The result
      never names a file already in the directory. */
  lemma UniqueNameMeaning(name: string, existing: set<string>)
    ensures name !in existing ==> UniqueName(name, existing) == Success(name)
    ensures name in existing && LastIndexOf(name, '.') == -1 ==> UniqueName(name, existing) == Failure(NoExtension)
    ensures name in existing && LastIndexOf(name, '.') >= 0 ==>
      exists k :: k >= 1 && UniqueName(name, existing) == Success(Candidate(name, k))
        && (forall j :: 1 <= j < k ==> Candidate(name, j) in existing)
    ensures UniqueName(name, existing).Success? ==> UniqueName(name, existing).value !in existing
  {
    if name in existing && LastIndexOf(name, '.') >= 0 {
      UniqueFromMeaning(name, existing, 1);
    }
  }

  /** The do-while with count++ of getUniqueFile. */
  method GetUniqueFile(name: string, existing: set<string>) returns (r: Result<string, RenameError>)
    ensures r == UniqueName(name, existing)
  {
    if name !in existing {
      return Success(name);
    }
    if LastIndexOf(name, '.') == -1 {
      return Failure(NoExtension);
    }
    var count := 1;
    var candidate := Candidate(name, count);
    while candidate in existing
      invariant count >= 1 && candidate == Candidate(name, count) && TakenBelow(name, existing, count)
      invariant UniqueFrom(name, existing, 1) == UniqueFrom(name, existing, count)
      decreases |existing| + 1 - count
    {
      TakenBelowBound(name, existing, count + 1);
      count := count + 1;
      candidate := Candidate(name, count);
    }
    return Success(candidate);
  }

  lemma SubsetSize<T>(a: set<T>, b: set<T>)
    requires a <= b
    ensures |a| <= |b|
  {
    assert b == a + (b - a);
  }

  lemma {:induction false} NoDotDotConcat(a: string, b: string)
    requires !HasDotDot(a) && !HasDotDot(b)
    requires a == [] || b == [] || a[|a| - 1] != '.' || b[0] != '.'
    ensures !HasDotDot(a + b)
  {
    var s := a + b;
    forall j | 0 <= j < |s| - 1 && s[j] == '.'
      ensures s[j + 1] != '.'
    {
      if j < |a| - 1 {
        assert s[j] == a[j] && s[j + 1] == a[j + 1];
      } else if j >= |a| {
        assert s[j] == b[j - |a|] && s[j + 1] == b[j + 1 - |a|];
      }
    }
  }

  lemma NoDotDotSlice(s: string, lo: nat, hi: nat)
    requires lo <= hi <= |s| && !HasDotDot(s)
    ensures !HasDotDot(s[lo..hi])
  {
    var t := s[lo..hi];
    forall j | 0 <= j < |t| - 1 && t[j] == '.'
      ensures t[j + 1] != '.'
    {
      assert t[j] == s[lo + j] && t[j + 1] == s[lo + j + 1];
    }
  }

  /** A renamed file keeps a valid name: inserting "_" and digits before the extension adds no
      "..", no separator and no reserved character. */
  lemma RenamedNameIsValid(name: string, k: nat)
    requires IsValidFileName(name) && LastIndexOf(name, '.') >= 0
    ensures IsValidFileName(Candidate(name, k))
  {
    CandidateNoDotDot(name, k);
    CandidateChars(name, k);
  }

  lemma CandidateNoDotDot(name: string, k: nat)
    requires IsValidFileName(name) && LastIndexOf(name, '.') >= 0
    ensures !HasDotDot(Candidate(name, k))
  {
    var d := LastIndexOf(name, '.');
    var b, e := BaseName(name), Extension(name);
    var digits := Decimal(k);
    var mid := "_" + digits;
    NoDotDotSlice(name, d, |name|);
    if d < |name| - 1 {
      NoDotDotSlice(name, 0, d);
    }
    assert !HasDotDot(mid) by {
      forall j | 0 <= j < |mid| ensures mid[j] != '.' {
        if j > 0 { assert mid[j] == digits[j - 1]; }
      }
    }
    NoDotDotConcat(b, mid);
    NoDotDotConcat(b + mid, e);
    assert Candidate(name, k) == b + mid + e;
  }

  lemma CandidateChars(name: string, k: nat)
    requires IsValidFileName(name) && LastIndexOf(name, '.') >= 0
    ensures var c := Candidate(name, k);
      forall i :: 0 <= i < |c| ==> c[i] != '/' && c[i] != '\\' && !IsReservedChar(c[i])
  {
    var d := LastIndexOf(name, '.');
    var b, e := BaseName(name), Extension(name);
    var digits := Decimal(k);
    var mid := "_" + digits;
    var c := Candidate(name, k);
    assert c == b + mid + e;
    forall i | 0 <= i < |c|
      ensures c[i] != '/' && c[i] != '\\' && !IsReservedChar(c[i])
    {
      if i < |b| {
        assert c[i] == name[i];
      } else if i < |b| + |mid| {
        assert c[i] == mid[i - |b|];
        if i > |b| { assert c[i] == digits[i - |b| - 1]; }
      } else {
        assert c[i] == name[d + i - |b| - |mid|];
      }
    }
  }
}
