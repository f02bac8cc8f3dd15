/**
 * `slugify` (apps/admin/src/lib/utils/slugify.ts): the chain of string
 * rewrites that turns a title or a tag name into a URL slug.
 */
module SlugUtils {
  import opened Strings

  /** Combining diacritical marks, U+0300 to U+036F. */
  predicate IsCombiningMark(c: char) { '\U{0300}' <= c <= '\U{036F}' }

  predicate NotCombining(c: char) { !IsCombiningMark(c) }

  /** What survives the `[^a-z0-9\s-]` filter. */
  predicate Kept(c: char) { IsLowerAscii(c) || IsDigit(c) || IsSpace(c) || c == '-' }

  /** The slug alphabet. */
  predicate SlugChar(c: char) { IsLowerAscii(c) || IsDigit(c) || c == '-' }

  predicate NoDoubleHyphen(s: string)
  {
    forall i :: 0 <= i < |s| - 1 ==> !(s[i] == '-' && s[i + 1] == '-')
  }

  /** A slug: only `a-z`, `0-9` and `-`, and never two hyphens in a row. */
  predicate IsSlug(s: string)
  {
    AllSlugChars(s) && NoDoubleHyphen(s)
  }

  predicate AllSlugChars(s: string)
  {
    forall i :: 0 <= i < |s| ==> SlugChar(s[i])
  }

  /** The input from its first character that is not a hyphen. */
  function DropHyphens(s: string): (r: string)
    ensures |r| <= |s| && r == s[|s| - |r|..]
    ensures r == [] || r[0] != '-'
  {
    if s != [] && s[0] == '-' then DropHyphens(s[1..]) else s
  }

  /** `replace(/-+/g, "-")`: every run of hyphens becomes one. */
  function CollapseHyphens(s: string): (r: string)
    ensures NoDoubleHyphen(r)
    ensures s != [] ==> r != [] && r[0] == s[0]
    ensures AllSlugChars(s) ==> AllSlugChars(r)
    decreases |s|
  {
    if s == [] then []
    else if s[0] == '-' then
      var rest := DropHyphens(s);
      var t := CollapseHyphens(rest);
      assert AllSlugChars(s) ==> AllSlugChars(rest) by {
        if AllSlugChars(s) {
          forall i | 0 <= i < |rest| ensures SlugChar(rest[i]) {
            assert rest[i] == s[|s| - |rest| + i];
          }
        }
      }
      "-" + t
    else
      var t := CollapseHyphens(s[1..]);
      assert AllSlugChars(s) ==> AllSlugChars(s[1..]) by {
        if AllSlugChars(s) {
          forall i | 0 <= i < |s| - 1 ensures SlugChar(s[1..][i]) {
            assert s[1..][i] == s[i + 1];
          }
        }
      }
      [s[0]] + t
  }

  /** A string without a double hyphen is left as it is. */
  lemma {:induction false} CollapseHyphensNoop(s: string)
    requires NoDoubleHyphen(s)
    ensures CollapseHyphens(s) == s
    decreases |s|
  {
    if s != [] {
      assert NoDoubleHyphen(s[1..]) by {
        forall i | 0 <= i < |s[1..]| - 1
          ensures !(s[1..][i] == '-' && s[1..][i + 1] == '-')
        {
          assert s[1..][i] == s[i + 1] && s[1..][i + 1] == s[i + 2];
        }
      }
      CollapseHyphensNoop(s[1..]);
      if s[0] == '-' {
        assert DropHyphens(s) == s[1..];
      }
    }
  }

  /** `slugify`: drop combining marks, lower-case, trim, keep `[a-z0-9\s-]`, white-space runs to `-`, hyphen runs to one. */
  function Slugify(text: string): (r: string)
    ensures IsSlug(r)
  {
    var s1 := Filter(text, NotCombining);
    var s2 := Lower(s1);
    var s3 := Trim(s2);
    var s4 := Filter(s3, Kept);
    var s5 := ReplaceSpaceRuns(s4, "-");
    assert forall i :: 0 <= i < |s4| ==> SlugChar(s4[i]) || IsSpace(s4[i]);
    ReplaceSpaceRunsChars(s4, "-", SlugChar);
    CollapsedSlug(s5);
    CollapseHyphens(s5)
  }

  lemma CollapsedSlug(s: string)
    requires AllSlugChars(s)
    ensures IsSlug(CollapseHyphens(s))
  {
  }

  /** A slug is its own slug. */
  lemma SlugFixed(s: string)
    requires IsSlug(s)
    ensures Slugify(s) == s
  {
    assert Filter(s, NotCombining) == s;
    assert Lower(s) == s;
    assert forall i :: 0 <= i < |s| ==> !IsSpace(s[i]);
    TrimOfTrimmed(s);
    assert Filter(s, Kept) == s;
    ReplaceSpaceRunsNoop(s, "-");
    CollapseHyphensNoop(s);
  }

  /** `slugify` is idempotent. */
  lemma SlugifyIdempotent(text: string)
    ensures Slugify(Slugify(text)) == Slugify(text)
  {
    SlugFixed(Slugify(text));
  }

  /** ASCII letters and digits. */
  predicate Alnum(s: string)
  {
    forall i :: 0 <= i < |s| ==> IsLowerAscii(s[i]) || IsUpperAscii(s[i]) || IsDigit(s[i])
  }

  /** Characters the slug filter drops: not letters, digits, white space or hyphens. */
  predicate Dropped(s: string)
  {
    forall i :: 0 <= i < |s| ==> !Kept(LowerChar(s[i])) && !IsSpace(s[i]) && NotCombining(s[i])
  }

  lemma JoinNoDoubleHyphen(x: string, y: string)
    requires Alnum(x) && Alnum(y)
    ensures NoDoubleHyphen(x + "-" + y)
  {
    var r := x + "-" + y;
    forall i | 0 <= i < |r| - 1
      ensures !(r[i] == '-' && r[i + 1] == '-')
    {
      if i < |x| {
        assert r[i] == x[i];
      } else {
        assert r[i + 1] == y[i - |x|];
      }
    }
  }

  lemma WordsNotCombining(w1: string, a: string, w2: string, b: string, j: string, w3: string)
    requires AllSpace(w1) && AllSpace(w2) && AllSpace(w3)
    requires Alnum(a) && Alnum(b) && Dropped(j)
    ensures var s := w1 + a + w2 + b + j + w3; Filter(s, NotCombining) == s
  {
    var s := w1 + a + w2 + b + j + w3;
    forall i | 0 <= i < |s|
      ensures NotCombining(s[i])
    {
    }
  }

  lemma WordsLower(w1: string, a: string, w2: string, b: string, j: string, w3: string)
    requires AllSpace(w1) && AllSpace(w2) && AllSpace(w3)
    ensures Lower(w1 + a + w2 + b + j + w3) == w1 + (Lower(a) + w2 + Lower(b) + Lower(j)) + w3
  {
    LowerAppend(w1 + a + w2 + b + j, w3);
    LowerAppend(w1 + a + w2 + b, j);
    LowerAppend(w1 + a + w2, b);
    LowerAppend(w1 + a, w2);
    LowerAppend(w1, a);
    assert Lower(w1) == w1 && Lower(w2) == w2 && Lower(w3) == w3;
  }

  lemma WordsTrim(la: string, w2: string, lb: string, lj: string)
    requires la != [] && lb != [] && Alnum(la) && Alnum(lb)
    requires forall i :: 0 <= i < |lj| ==> !IsSpace(lj[i])
    ensures IsTrimmed(la + w2 + lb + lj)
  {
    var m := la + w2 + lb + lj;
    assert m[0] == la[0];
    if lj == [] {
      assert m[|m| - 1] == lb[|lb| - 1];
    } else {
      assert m[|m| - 1] == lj[|lj| - 1];
    }
  }

  lemma WordsFilter(la: string, w2: string, lb: string, lj: string)
    requires AllSpace(w2) && Alnum(la) && Alnum(lb)
    requires forall i :: 0 <= i < |la| ==> !IsUpperAscii(la[i])
    requires forall i :: 0 <= i < |lb| ==> !IsUpperAscii(lb[i])
    requires forall i :: 0 <= i < |lj| ==> !Kept(lj[i])
    ensures Filter(la + w2 + lb + lj, Kept) == la + w2 + lb
  {
    FilterAppend(la + w2 + lb, lj, Kept);
    FilterNone(lj, Kept);
    var t := la + w2 + lb;
    assert forall i :: 0 <= i < |t| ==> Kept(t[i]);
  }

  /**
   * Surrounding white space is trimmed, the run of white space between two
   * words becomes one hyphen, letters are lower-cased and punctuation is
   * dropped.
   */
  lemma SlugifyWords(w1: string, a: string, w2: string, b: string, j: string, w3: string)
    requires AllSpace(w1) && AllSpace(w2) && AllSpace(w3) && w2 != []
    requires Alnum(a) && Alnum(b) && a != [] && b != [] && Dropped(j)
    ensures Slugify(w1 + a + w2 + b + j + w3) == Lower(a) + "-" + Lower(b)
  {
    var la, lb, lj := Lower(a), Lower(b), Lower(j);
    var m := la + w2 + lb + lj;
    WordsPrepared(w1, a, w2, b, j, w3);
    WordsJoined(la, w2, lb, lj);
  }

  /** The first three steps leave the words, lower-cased, between their white space. */
  lemma WordsPrepared(w1: string, a: string, w2: string, b: string, j: string, w3: string)
    requires AllSpace(w1) && AllSpace(w2) && AllSpace(w3)
    requires Alnum(a) && Alnum(b) && a != [] && b != [] && Dropped(j)
    ensures Trim(Lower(Filter(w1 + a + w2 + b + j + w3, NotCombining))) == Lower(a) + w2 + Lower(b) + Lower(j)
  {
    var s := w1 + a + w2 + b + j + w3;
    var la, lb, lj := Lower(a), Lower(b), Lower(j);
    var m := la + w2 + lb + lj;
    WordsNotCombining(w1, a, w2, b, j, w3);
    WordsLower(w1, a, w2, b, j, w3);
    WordsTrim(la, w2, lb, lj);
    TrimSurrounded(w1, m, w3);
  }

  /** The last three steps drop the punctuation and join the words with one hyphen. */
  lemma WordsJoined(la: string, w2: string, lb: string, lj: string)
    requires AllSpace(w2) && w2 != [] && Alnum(la) && Alnum(lb)
    requires forall i :: 0 <= i < |la| ==> !IsUpperAscii(la[i])
    requires forall i :: 0 <= i < |lb| ==> !IsUpperAscii(lb[i])
    requires forall i :: 0 <= i < |lj| ==> !Kept(lj[i])
    ensures CollapseHyphens(ReplaceSpaceRuns(Filter(la + w2 + lb + lj, Kept), "-")) == la + "-" + lb
  {
    WordsFilter(la, w2, lb, lj);
    ReplaceSpaceRunsBetween(la, w2, lb, "-");
    JoinNoDoubleHyphen(la, lb);
    CollapseHyphensNoop(la + "-" + lb);
  }
}
