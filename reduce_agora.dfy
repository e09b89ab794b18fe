/** The offline reduction of the AGORA strain collection to one
    representative strain per phylum: strain ids from model file names,
    grouping by phylum (the NCBI lookup, from a strain's two-word taxonomy
    query to its phylum, is the parameter `lookup`), and,
    within a phylum, the strain whose reaction set has the smallest mean
    Jaccard distance to the others (model reading is the parameter `read`,
    `None` when a file cannot be read). Distances are exact reals. */
module ReduceAgora {
  import opened Wrappers
  import opened Text

  // ---------------------------------------------------------------------
  // Strain ids and the taxonomy query

  /** Index of the first `c` in `s`, or `|s|` when there is none. */
  function FirstIndexOf(s: string, c: char): (i: nat)
    ensures i <= |s|
    ensures forall j :: 0 <= j < i ==> s[j] != c
    ensures i < |s| ==> s[i] == c
  {
    if s == [] then 0
    else if s[0] == c then 0
    else 1 + FirstIndexOf(s[1..], c)
  }

  /** `f.split(".")[0]`: the file name up to its first dot. */
  function StrainId(f: string): (id: string)
    ensures id <= f
    ensures '.' !in id
    ensures id == f || f[|id|] == '.'
  {
    f[..FirstIndexOf(f, '.')]
  }

  /** `f.endswith(".xml")` */
  predicate IsXml(f: string)
  {
    |f| >= 4 && f[|f| - 4..] == ".xml"
  }

  /** The directory listing filtered to model files, in listing order. */
  function XmlFiles(listing: seq<string>): (files: seq<string>)
    ensures forall i :: 0 <= i < |files| ==> IsXml(files[i]) && files[i] in listing
    ensures forall f :: f in listing && IsXml(f) ==> f in files
  {
    if listing == [] then []
    else
      var prev := XmlFiles(listing[..|listing| - 1]);
      var f := listing[|listing| - 1];
      assert forall g :: g in listing[..|listing| - 1] ==> g in listing;
      if IsXml(f) then prev + [f] else prev
  }

  /** The strain-id-to-file dictionary: a later file with the same
      strain id replaces the earlier one. */
  function StrainToFile(files: seq<string>): (m: map<string, string>)
    ensures forall id :: id in m ==> StrainId(m[id]) == id && m[id] in files
  {
    if files == [] then map[]
    else
      var prev := StrainToFile(files[..|files| - 1]);
      assert forall g :: g in files[..|files| - 1] ==> g in files;
      prev[StrainId(files[|files| - 1]) := files[|files| - 1]]
  }

  /** The keys of that dictionary in its iteration order: each strain id at
      the position of the first file that has it. */
  function StrainOrder(files: seq<string>): (ids: seq<string>)
  {
    if files == [] then []
    else
      var prev := StrainOrder(files[..|files| - 1]);
      var id := StrainId(files[|files| - 1]);
      if id in prev then prev else prev + [id]
  }

  /** Every file's strain id is a key, mapped to the last file with that id. */
  lemma {:induction false} StrainToFileLastWins(files: seq<string>, i: nat)
    requires i < |files|
    requires forall j :: i < j < |files| ==> StrainId(files[j]) != StrainId(files[i])
    ensures StrainId(files[i]) in StrainToFile(files)
    ensures StrainToFile(files)[StrainId(files[i])] == files[i]
  {
    if i < |files| - 1 {
      var prefix := files[..|files| - 1];
      assert prefix[i] == files[i];
      StrainToFileLastWins(prefix, i);
    }
  }

  /** The iteration order lists each key of the dictionary exactly once. */
  lemma {:induction false} StrainOrderIsKeys(files: seq<string>)
    ensures forall i, j :: 0 <= i < j < |StrainOrder(files)| ==> StrainOrder(files)[i] != StrainOrder(files)[j]
    ensures forall id :: id in StrainOrder(files) <==> id in StrainToFile(files)
  {
    if files != [] {
      StrainOrderIsKeys(files[..|files| - 1]);
    }
  }

  /** `s.replace(c, d)` for single characters. */
  function ReplaceChar(s: string, c: char, d: char): (r: string)
    ensures |r| == |s|
    ensures forall i :: 0 <= i < |s| ==> r[i] == (if s[i] == c then d else s[i])
  {
    seq(|s|, i requires 0 <= i < |s| => if s[i] == c then d else s[i])
  }

  /** `s.split(c)`: the pieces between occurrences of `c`, empty pieces kept. */
  function Split(s: string, c: char): (parts: seq<string>)
    ensures |parts| >= 1
    decreases |s|
  {
    var i := FirstIndexOf(s, c);
    if i == |s| then [s] else [s[..i]] + Split(s[i + 1..], c)
  }

  /** The NCBI query for a strain: underscores read as spaces, and the first
      two space-separated pieces joined by one space. */
  function TaxonomyQuery(strainId: string): string
  {
    var parts := Split(ReplaceChar(strainId, '_', ' '), ' ');
    Join(parts[..if |parts| < 2 then |parts| else 2], " ")
  }

  /** `s` cut just before its second `c` (all of `s` when it has fewer). */
  function UpToSecond(s: string, c: char): (r: string)
    ensures r <= s
  {
    var i := FirstIndexOf(s, c);
    if i == |s| then s else s[..i + 1 + FirstIndexOf(s[i + 1..], c)]
  }

  lemma SplitHead(s: string, c: char)
    ensures Split(s, c)[0] == s[..FirstIndexOf(s, c)]
    ensures FirstIndexOf(s, c) == |s| ==> Split(s, c) == [s]
    ensures FirstIndexOf(s, c) < |s| ==>
              Split(s, c) == [s[..FirstIndexOf(s, c)]] + Split(s[FirstIndexOf(s, c) + 1..], c)
  {
  }

  /** The first two pieces joined back are the string up to its second separator. */
  lemma JoinFirstTwo(s: string)
    ensures var parts := Split(s, ' ');
            Join(parts[..if |parts| < 2 then |parts| else 2], " ") == UpToSecond(s, ' ')
  {
    var i := FirstIndexOf(s, ' ');
    var parts := Split(s, ' ');
    SplitHead(s, ' ');
    if i < |s| {
      SplitTwo(s, i);
    } else {
      assert parts[..1] == [s];
    }
  }

  lemma SplitTwo(s: string, i: nat)
    requires i == FirstIndexOf(s, ' ') && i < |s|
    ensures Join(Split(s, ' ')[..2], " ") == UpToSecond(s, ' ')
  {
    var rest := s[i + 1..];
    var k := FirstIndexOf(rest, ' ');
    SplitFirstTwo(s, i);
    JoinPair(s[..i], rest[..k], " ");
    CutAtSpace(s, i, k);
  }

  lemma SplitFirstTwo(s: string, i: nat)
    requires i == FirstIndexOf(s, ' ') && i < |s|
    ensures Split(s, ' ')[..2] == [s[..i], s[i + 1..][..FirstIndexOf(s[i + 1..], ' ')]]
  {
    SplitHead(s, ' ');
    SplitHead(s[i + 1..], ' ');
  }

  lemma CutAtSpace(s: string, i: nat, k: nat)
    requires i < |s| && s[i] == ' ' && i + 1 + k <= |s|
    ensures s[..i + 1 + k] == s[..i] + " " + s[i + 1..][..k]
  {
  }

  /** The query is the id, underscores read as spaces, cut just before its
      second space; it holds no underscore. */
  lemma TaxonomyQueryIsPrefix(strainId: string)
    ensures TaxonomyQuery(strainId) == UpToSecond(ReplaceChar(strainId, '_', ' '), ' ')
    ensures '_' !in TaxonomyQuery(strainId)
  {
    var s := ReplaceChar(strainId, '_', ' ');
    JoinFirstTwo(s);
    assert '_' !in s;
  }

  // ---------------------------------------------------------------------
  // Grouping by phylum

  /** The phylum the lookup finds for a strain's taxonomy query, if any
      (lines 26-42; a lookup that raises is `None` as well). */
  function PhylumOf(lookup: string -> Option<string>, strainId: string): Option<string>
  {
    lookup(TaxonomyQuery(strainId))
  }

  /** The strains of `ids` whose phylum is `p`, in order. */
  function Members(ids: seq<string>, lookup: string -> Option<string>, p: string): (ms: seq<string>)
    ensures forall i :: 0 <= i < |ms| ==> ms[i] in ids && PhylumOf(lookup, ms[i]) == Some(p)
    ensures forall s :: s in ids && PhylumOf(lookup, s) == Some(p) ==> s in ms
  {
    if ids == [] then []
    else
      var prev := Members(ids[..|ids| - 1], lookup, p);
      var s := ids[|ids| - 1];
      assert forall g :: g in ids[..|ids| - 1] ==> g in ids;
      if PhylumOf(lookup, s) == Some(p) then prev + [s] else prev
  }

  /** Lines 23-45: each strain whose phylum is known goes into
      `strain_to_phylum` and is appended to its phylum's list. */
  method GroupByPhylum(ids: seq<string>, lookup: string -> Option<string>)
    returns (strainToPhylum: map<string, string>, phylumToStrains: map<string, seq<string>>)
    ensures forall s :: s in strainToPhylum <==> s in ids && PhylumOf(lookup, s).Some?
    ensures forall s :: s in strainToPhylum ==> PhylumOf(lookup, s) == Some(strainToPhylum[s])
    ensures forall p :: p in phylumToStrains <==> Members(ids, lookup, p) != []
    ensures forall p :: p in phylumToStrains ==> phylumToStrains[p] == Members(ids, lookup, p)
  {
    strainToPhylum := map[];
    phylumToStrains := map[];
    for k := 0 to |ids|
      invariant forall s :: s in strainToPhylum <==> s in ids[..k] && PhylumOf(lookup, s).Some?
      invariant forall s :: s in strainToPhylum ==> PhylumOf(lookup, s) == Some(strainToPhylum[s])
      invariant forall p :: p in phylumToStrains <==> Members(ids[..k], lookup, p) != []
      invariant forall p :: p in phylumToStrains ==> phylumToStrains[p] == Members(ids[..k], lookup, p)
    {
      var s := ids[k];
      assert ids[..k + 1][..k] == ids[..k];
      var phylum := PhylumOf(lookup, s);
      if phylum.Some? {
        var p := phylum.value;
        strainToPhylum := strainToPhylum[s := p];
        if p in phylumToStrains {
          phylumToStrains := phylumToStrains[p := phylumToStrains[p] + [s]];
        } else {
          phylumToStrains := phylumToStrains[p := [s]];
        }
      }
    }
    assert ids[..|ids|] == ids;
  }

  // ---------------------------------------------------------------------
  // Jaccard distances and the representative

  /** 1 - |A ∩ B| / |A ∪ B| */
  function Jaccard(a: set<string>, b: set<string>): (d: real)
    requires a + b != {}
    ensures 0.0 <= d <= 1.0
  {
    CardIntersectionAtMostUnion(a, b);
    1.0 - (|a * b| as real) / (|a + b| as real)
  }

  lemma CardIntersectionAtMostUnion(a: set<string>, b: set<string>)
    ensures |a * b| <= |a + b|
  {
    SubsetCard(a * b, a + b);
  }

  lemma {:induction false} SubsetCard(x: set<string>, y: set<string>)
    requires x <= y
    ensures |x| <= |y|
    decreases |x|
  {
    if x != {} {
      var e :| e in x;
      SubsetCard(x - {e}, y - {e});
    }
  }

  /** The distance is zero exactly for identical sets, and does not depend
      on the argument order. */
  lemma JaccardZeroIffEqual(a: set<string>, b: set<string>)
    requires a + b != {}
    ensures Jaccard(a, b) == 0.0 <==> a == b
    ensures Jaccard(a, b) == Jaccard(b, a)
  {
    assert a * b == b * a && a + b == b + a;
    if Jaccard(a, b) == 0.0 {
      assert |a * b| == |a + b|;
      assert (a + b) - (a * b) == (a - b) + (b - a);
      assert |(a + b) - (a * b)| == |a + b| - |a * b|;
      assert a - b == {};
      assert b - a == {};
    }
  }

  /** No two reaction sets are both empty, so that every union the matrix
      divides by is non-empty. */
  predicate Computable(sets: seq<set<string>>)
  {
    forall i, j :: 0 <= i < j < |sets| ==> sets[i] != {} || sets[j] != {}
  }

  /** The entry at row i, column j as the nested loop writes it. */
  function Dist(sets: seq<set<string>>, i: nat, j: nat): (d: real)
    requires Computable(sets) && i < |sets| && j < |sets|
    ensures 0.0 <= d <= 1.0
  {
    if i == j then 0.0
    else if i < j then Jaccard(sets[i], sets[j])
    else Jaccard(sets[j], sets[i])
  }

  /** Lines 83-90: `np.zeros((n, n))`, then the upper triangle computed and
      mirrored. The result is symmetric with a zero diagonal. */
  method DistanceMatrix(sets: seq<set<string>>) returns (d: array2<real>)
    requires Computable(sets)
    ensures fresh(d) && d.Length0 == |sets| && d.Length1 == |sets|
    ensures forall i, j :: 0 <= i < |sets| && 0 <= j < |sets| ==> d[i, j] == Dist(sets, i, j)
    ensures forall i, j :: 0 <= i < |sets| && 0 <= j < |sets| ==> d[i, j] == d[j, i]
    ensures forall i :: 0 <= i < |sets| ==> d[i, i] == 0.0
    ensures forall i, j :: 0 <= i < j < |sets| ==> d[i, j] == Jaccard(sets[i], sets[j])
  {
    var n := |sets|;
    d := new real[n, n]((i, j) => 0.0);
    for i := 0 to n
      invariant forall a, b :: 0 <= a < n && 0 <= b < n ==>
                  d[a, b] == (if a < i || b < i then Dist(sets, a, b) else 0.0)
    {
      for j := i + 1 to n
        invariant forall a, b :: 0 <= a < n && 0 <= b < n ==>
                    d[a, b] == (if a < i || b < i || (a == i && i < b < j) || (b == i && i < a < j)
                                then Dist(sets, a, b) else 0.0)
      {
        var x := Jaccard(sets[i], sets[j]);
        d[i, j] := x;
        d[j, i] := x;
      }
    }
  }

  /** The sum of the first `m` entries of row i of the distances. */
  function RowSum(sets: seq<set<string>>, i: nat, m: nat): real
    requires Computable(sets) && i < |sets| && m <= |sets|
  {
    if m == 0 then 0.0 else RowSum(sets, i, m - 1) + Dist(sets, i, m - 1)
  }

  /** The same sum read from a matrix. */
  function MatrixRowSum(d: array2<real>, i: nat, m: nat): real
    requires i < d.Length0 && m <= d.Length1
    reads d
  {
    if m == 0 then 0.0 else MatrixRowSum(d, i, m - 1) + d[i, m - 1]
  }

  lemma {:induction false} MatrixRowSumMatches(d: array2<real>, sets: seq<set<string>>, i: nat, m: nat)
    requires Computable(sets) && i < |sets| && m <= |sets|
    requires d.Length0 == |sets| && d.Length1 == |sets|
    requires forall a, b :: 0 <= a < |sets| && 0 <= b < |sets| ==> d[a, b] == Dist(sets, a, b)
    ensures MatrixRowSum(d, i, m) == RowSum(sets, i, m)
  {
    if m > 0 {
      MatrixRowSumMatches(d, sets, i, m - 1);
    }
  }

  /** `dist_matrix.mean(axis=1)`: each row's mean over all n entries,
      the zero diagonal included. */
  function RowMeans(sets: seq<set<string>>): (means: seq<real>)
    requires Computable(sets) && |sets| > 0
    ensures |means| == |sets|
  {
    seq(|sets|, i requires 0 <= i < |sets| => RowSum(sets, i, |sets|) / (|sets| as real))
  }

  function Sum(xs: seq<real>): real
  {
    if xs == [] then 0.0 else Sum(xs[..|xs| - 1]) + xs[|xs| - 1]
  }

  /** `np.mean` */
  function Mean(xs: seq<real>): real
    requires |xs| > 0
  {
    Sum(xs) / (|xs| as real)
  }

  /** `np.argmin`: the first index of a smallest element. */
  function ArgMin(xs: seq<real>): (k: nat)
    requires |xs| > 0
    ensures k < |xs|
    ensures forall j :: 0 <= j < |xs| ==> xs[k] <= xs[j]
    ensures forall j :: 0 <= j < k ==> xs[j] > xs[k]
  {
    if |xs| == 1 then 0
    else
      var k := ArgMin(xs[..|xs| - 1]);
      assert forall j :: 0 <= j < |xs| - 1 ==> xs[..|xs| - 1][j] == xs[j];
      if xs[|xs| - 1] < xs[k] then |xs| - 1 else k
  }

  /** Every element at least the minimum makes the sum at least n times it. */
  lemma {:induction false} SumAtLeast(xs: seq<real>, lo: real)
    requires forall j :: 0 <= j < |xs| ==> lo <= xs[j]
    ensures Sum(xs) >= (|xs| as real) * lo
  {
    if xs != [] {
      var prefix := xs[..|xs| - 1];
      assert forall j :: 0 <= j < |prefix| ==> prefix[j] == xs[j];
      SumAtLeast(prefix, lo);
    }
  }

  /** The smallest mean is at most the mean of the means. */
  lemma MinAtMostMean(xs: seq<real>)
    requires |xs| > 0
    ensures xs[ArgMin(xs)] <= Mean(xs)
  {
    MeanAtLeast(xs, xs[ArgMin(xs)]);
  }

  /** A lower bound of every element bounds the mean. */
  lemma MeanAtLeast(xs: seq<real>, lo: real)
    requires |xs| > 0
    requires forall j :: 0 <= j < |xs| ==> lo <= xs[j]
    ensures Mean(xs) >= lo
  {
    var n := |xs| as real;
    SumAtLeast(xs, lo);
    DivideAtLeast(Sum(xs), n, lo);
  }

  lemma DivideAtLeast(total: real, n: real, lo: real)
    requires n > 0.0 && total >= n * lo
    ensures total / n >= lo
  {
    var q := total / n;
    assert q * n == total;
    if q < lo {
      assert q * n < lo * n;
    }
  }

  /** A phylum's representative strain with the smallest and the mean
      average distance. */
  datatype Representative = Representative(strain: string, minAverage: real, meanAverage: real)

  /** The strains of a phylum whose model could be read, in order, and
      their reaction sets. */
  function ReadableIds(strains: seq<string>, read: string -> Option<set<string>>): (ids: seq<string>)
    ensures forall i :: 0 <= i < |ids| ==> ids[i] in strains && read(ids[i]).Some?
  {
    if strains == [] then []
    else
      var prev := ReadableIds(strains[..|strains| - 1], read);
      var s := strains[|strains| - 1];
      assert forall g :: g in strains[..|strains| - 1] ==> g in strains;
      if read(s).Some? then prev + [s] else prev
  }

  function ReadableSets(strains: seq<string>, read: string -> Option<set<string>>): (sets: seq<set<string>>)
    ensures |sets| == |ReadableIds(strains, read)|
    ensures forall i :: 0 <= i < |sets| ==> Some(sets[i]) == read(ReadableIds(strains, read)[i])
  {
    if strains == [] then []
    else
      var prev := ReadableSets(strains[..|strains| - 1], read);
      var s := strains[|strains| - 1];
      if read(s).Some? then prev + [read(s).value] else prev
  }

  /** Lines 56-97 for one phylum. A single strain is its own representative
      with distances 0, without reading any model; fewer than two readable
      models give the first readable strain with distances 0; otherwise the
      first strain with the smallest mean distance. `None` where the script
      raises: no readable model at all (`strain_ids[0]`), or two empty
      reaction sets (a division by an empty union). */
  function PhylumRepresentative(strains: seq<string>, read: string -> Option<set<string>>): (r: Option<Representative>)
    ensures r.Some? ==> r.value.strain in strains
    ensures r.Some? ==> 0.0 <= r.value.minAverage <= r.value.meanAverage
    ensures |strains| == 1 ==> r == Some(Representative(strains[0], 0.0, 0.0))
    ensures |strains| != 1 && |ReadableIds(strains, read)| == 0 ==> r.None?
  {
    if |strains| == 1 then Some(Representative(strains[0], 0.0, 0.0))
    else
      var ids := ReadableIds(strains, read);
      var sets := ReadableSets(strains, read);
      if |sets| < 2 then
        if |ids| == 0 then None else Some(Representative(ids[0], 0.0, 0.0))
      else if !Computable(sets) then None
      else
        var means := RowMeans(sets);
        var k := ArgMin(means);
        MinAtMostMean(means);
        MeansNonNegative(sets);
        Some(Representative(ids[k], means[k], Mean(means)))
  }

  lemma MeansNonNegative(sets: seq<set<string>>)
    requires Computable(sets) && |sets| > 0
    ensures forall i :: 0 <= i < |sets| ==> RowMeans(sets)[i] >= 0.0
  {
    forall i | 0 <= i < |sets| ensures RowMeans(sets)[i] >= 0.0 {
      RowSumNonNegative(sets, i, |sets|);
    }
  }

  lemma {:induction false} RowSumNonNegative(sets: seq<set<string>>, i: nat, m: nat)
    requires Computable(sets) && i < |sets| && m <= |sets|
    ensures RowSum(sets, i, m) >= 0.0
  {
    if m > 0 {
      RowSumNonNegative(sets, i, m - 1);
    }
  }

  /** The representative has the smallest mean distance among the readable
      strains, and no earlier readable strain has the same. */
  lemma RepresentativeMinimises(strains: seq<string>, read: string -> Option<set<string>>)
    requires |strains| != 1
    requires |ReadableSets(strains, read)| >= 2 && Computable(ReadableSets(strains, read))
    ensures var sets := ReadableSets(strains, read);
            var ids := ReadableIds(strains, read);
            var means := RowMeans(sets);
            exists k :: 0 <= k < |ids| &&
              PhylumRepresentative(strains, read) == Some(Representative(ids[k], means[k], Mean(means))) &&
              (forall j :: 0 <= j < |means| ==> means[k] <= means[j]) &&
              (forall j :: 0 <= j < k ==> means[j] > means[k])
  {
    var means := RowMeans(ReadableSets(strains, read));
    var k := ArgMin(means);
    assert 0 <= k < |ReadableIds(strains, read)|;
  }

  /** The selection for one phylum as the script runs it: the reading loop,
      the fallbacks, the distance matrix, its row means and their argmin. */
  method SelectRepresentative(strains: seq<string>, read: string -> Option<set<string>>)
    returns (r: Option<Representative>)
    ensures r == PhylumRepresentative(strains, read)
  {
    if |strains| == 1 {
      return Some(Representative(strains[0], 0.0, 0.0));
    }
    var sets: seq<set<string>> := [];
    var ids: seq<string> := [];
    for k := 0 to |strains|
      invariant ids == ReadableIds(strains[..k], read)
      invariant sets == ReadableSets(strains[..k], read)
    {
      assert strains[..k + 1][..k] == strains[..k];
      var reactions := read(strains[k]);
      if reactions.Some? {
        sets := sets + [reactions.value];
        ids := ids + [strains[k]];
      }
    }
    assert strains[..|strains|] == strains;
    if |sets| < 2 {
      if |ids| == 0 {
        return None;
      }
      return Some(Representative(ids[0], 0.0, 0.0));
    }
    if !Computable(sets) {
      return None;
    }
    var n := |sets|;
    var d := DistanceMatrix(sets);
    forall i | 0 <= i < n ensures MatrixRowSum(d, i, n) == RowSum(sets, i, n) {
      MatrixRowSumMatches(d, sets, i, n);
    }
    var means := seq(n, i requires 0 <= i < n reads d => MatrixRowSum(d, i, n) / (n as real));
    assert means == RowMeans(sets);
    var k := ArgMin(means);
    r := Some(Representative(ids[k], means[k], Mean(means)));
  }

  /** One entry of the exported summary. */
  datatype Summary = Summary(phylumSize: nat, representative: string, minJaccard: real, avgJaccard: real)

  /** Lines 48-116: every phylum's representative, exported with the number
      of strains grouped under the phylum (readable or not). `None` when the
      selection raises for some phylum: the script stops before writing. */
  function Export(groups: map<string, seq<string>>, read: string -> Option<set<string>>)
    : (out: Option<map<string, Summary>>)
    ensures out.Some? ==> out.value.Keys == groups.Keys
    ensures out.Some? ==> forall p :: p in groups ==>
              var rep := PhylumRepresentative(groups[p], read);
              rep.Some? &&
              out.value[p] == Summary(|groups[p]|, rep.value.strain, rep.value.minAverage, rep.value.meanAverage)
    ensures out.None? <==> exists p :: p in groups && PhylumRepresentative(groups[p], read).None?
  {
    if exists p :: p in groups && PhylumRepresentative(groups[p], read).None? then None
    else
      Some(map p | p in groups ::
        var rep := PhylumRepresentative(groups[p], read).value;
        Summary(|groups[p]|, rep.strain, rep.minAverage, rep.meanAverage))
  }

  /** The whole script: model files from the listing, strain ids in
      dictionary order, grouping by phylum, and the export. */
  method ReduceCollection(listing: seq<string>, lookup: string -> Option<string>,
                          read: string -> Option<set<string>>)
    returns (strainToPhylum: map<string, string>, phylumToStrains: map<string, seq<string>>,
             out: Option<map<string, Summary>>)
    ensures forall s :: s in strainToPhylum <==> s in StrainToFile(XmlFiles(listing)) && PhylumOf(lookup, s).Some?
    ensures forall p :: p in phylumToStrains <==> Members(StrainOrder(XmlFiles(listing)), lookup, p) != []
    ensures forall p :: p in phylumToStrains ==>
              phylumToStrains[p] == Members(StrainOrder(XmlFiles(listing)), lookup, p)
    ensures out == Export(phylumToStrains, read)
  {
    var files := XmlFiles(listing);
    StrainOrderIsKeys(files);
    strainToPhylum, phylumToStrains := GroupByPhylum(StrainOrder(files), lookup);
    out := Export(phylumToStrains, read);
  }
}
