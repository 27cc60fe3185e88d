/** Lists of arrays in one archive (ai_fingerprint/protocol.py, arrays_to_bytes
    and bytes_to_arrays). */
module ArrayLists {
  import opened Decimals
  import opened Results
  import opened Seqs
  import opened Sorting

  /** The key of array number i. */
  function Key(i: nat): string {
    "arr_" + Decimal(i)
  }

  /** One array of an archive, under its key. */
  datatype Member<A> = Member(key: string, content: A)

  /** The archive that holds a list of arrays. */
  function ArraysToBytes<A>(arrays: seq<A>): (files: seq<Member<A>>)
    ensures |files| == |arrays|
  {
    seq(|arrays|, i requires 0 <= i < |arrays| => Member(Key(i), arrays[i]))
  }

  /** The part of a key after its last underscore. */
  function Suffix(key: string): string {
    if key == [] || key[|key| - 1] == '_' then [] else Suffix(key[..|key| - 1]) + [key[|key| - 1]]
  }

  predicate Digits(s: string) {
    s != [] && forall k :: 0 <= k < |s| ==> '0' <= s[k] <= '9'
  }

  /** The number at the end of a key. */
  function KeyNumber(key: string): nat {
    if Digits(Suffix(key)) then Parse(Suffix(key)) else 0
  }

  function ByNumber<A>(): (Member<A>, Member<A>) -> bool {
    (m: Member<A>, n: Member<A>) => KeyNumber(m.key) <= KeyNumber(n.key)
  }

  datatype ArchiveError = BadKey

  /** The arrays of an archive, by the numbers of their keys. */
  function BytesToArrays<A>(files: seq<Member<A>>): Result<seq<A>, ArchiveError> {
    if exists i :: 0 <= i < |files| && !Digits(Suffix(files[i].key)) then Err(BadKey)
    else Ok(Arrays(Sort(files, ByNumber())))
  }

  function Arrays<A>(files: seq<Member<A>>): (arrays: seq<A>)
    ensures |arrays| == |files|
  {
    seq(|files|, i requires 0 <= i < |files| => files[i].content)
  }

  lemma {:induction false} SuffixOf(digits: string)
    requires forall k :: 0 <= k < |digits| ==> digits[k] != '_'
    ensures Suffix("arr_" + digits) == digits
  {
    if digits == [] {
      assert "arr_" + digits == "arr_";
    } else {
      var before := digits[..|digits| - 1];
      SuffixOf(before);
      assert ("arr_" + digits)[..|digits| + 3] == "arr_" + before;
    }
  }

  lemma KeyIs(i: nat)
    ensures Digits(Suffix(Key(i))) && KeyNumber(Key(i)) == i
  {
    SuffixOf(Decimal(i));
    ParseDecimal(i);
  }

  /** The key of array number i is arr_ and the decimal numeral of i, without leading
      zeros. */
  lemma {:induction false} KeyForm(i: nat)
    ensures var key := Key(i);
            && |key| > 4 && key[..4] == "arr_" && Digits(key[4..]) && Parse(key[4..]) == i
            && (key[4] == '0' ==> key == "arr_0" && i == 0)
  {
    assert Key(i)[4..] == Decimal(i);
    ParseDecimal(i);
    NoLeadingZero(i);
  }

  /** It is what follows the last underscore, or the whole key. */
  lemma {:induction false} SuffixIs(key: string)
    ensures var n := |key| - |Suffix(key)|;
            0 <= n && key[n..] == Suffix(key) && '_' !in Suffix(key) && (n > 0 ==> key[n - 1] == '_')
  {
    if key != [] && key[|key| - 1] != '_' { SuffixIs(key[..|key| - 1]); }
  }

  /** An archive is refused exactly when some key does not end in a number. */
  lemma RefusedExactly<A>(files: seq<Member<A>>)
    ensures BytesToArrays(files).Err? <==>
            exists m :: m in files && (Suffix(m.key) == "" || exists c :: c in Suffix(m.key) && !('0' <= c <= '9'))
  {
    hide Suffix, Digits;
    forall m | m in files
      ensures Digits(Suffix(m.key)) <==> !(Suffix(m.key) == "" || exists c :: c in Suffix(m.key) && !('0' <= c <= '9'))
    {
      DigitsExactly(Suffix(m.key));
    }
    if m :| m in files && !Digits(Suffix(m.key)) {
      var i :| 0 <= i < |files| && files[i] == m;
    }
  }

  lemma DigitsExactly(s: string)
    ensures Digits(s) <==> !(s == "" || exists c :: c in s && !('0' <= c <= '9'))
  {
    if c :| c in s && !('0' <= c <= '9') {
      var k :| 0 <= k < |s| && s[k] == c;
    }
    if s != "" && !Digits(s) {
      var k :| 0 <= k < |s| && !('0' <= s[k] <= '9');
      assert s[k] in s;
    }
  }

  /** However the archive lists its files, the arrays come back in order. */
  lemma ArraysComeBackInOrder<A(!new)>(arrays: seq<A>, files: seq<Member<A>>)
    ensures multiset(files) == multiset(ArraysToBytes(arrays)) ==> BytesToArrays(files) == Ok(arrays)
  {
    hide Suffix, Digits, KeyNumber, Key, Sort;
    var written := ArraysToBytes(arrays);
    if multiset(files) != multiset(written) { return; }
    forall i | 0 <= i < |written| ensures KeyNumber(written[i].key) == i && Digits(Suffix(written[i].key)) { KeyIs(i); }
    forall k | 0 <= k < |files| ensures Digits(Suffix(files[k].key)) {
      assert files[k] in multiset(files) && files[k] in multiset(written);
    }
    SortIs(files, ByNumber<A>());
    SortedUnique(written, Sort(files, ByNumber<A>()), ByNumber<A>());
    assert Arrays(written) == arrays;
  }
}
