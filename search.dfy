/**
 * The property-record search of the portal's landing page (src/App.tsx):
 * the record type, the fixed fixture list and the case-insensitive
 * substring filter behind the search form.
 */
module PropertySearch {
  import opened Wrappers

  datatype RecordStatus = Registered | Pending | Disputed

  datatype OwnershipTransfer = OwnershipTransfer(previousOwner: string, date: string)

  datatype PropertyRecord = PropertyRecord(
    id: string,
    address: string,
    owner: string,
    area: string,
    status: RecordStatus,
    valuation: string,
    ownershipHistory: Option<seq<OwnershipTransfer>>)

  /** The three fixture records the search runs over. */
  function MockRecords(): (rs: seq<PropertyRecord>)
    ensures |rs| == 3
  {
    [ PropertyRecord("SL-102-44-A", "124 Emerald Heights, District 4", "Logia Development Corp",
                     "450 m²", Registered, "€1.2M",
                     Some([OwnershipTransfer("Abebe Bikila", "2018-05-12"),
                           OwnershipTransfer("City Administration", "2010-01-01")])),
      PropertyRecord("SL-105-12-B", "88 Silver Lake Rd, District 2", "Elena Volkov",
                     "1,200 m²", Registered, "€3.5M",
                     Some([OwnershipTransfer("Dmitri Volkov", "2022-11-20")])),
      PropertyRecord("SL-201-09-C", "Sector 7G, Industrial Zone", "Samara Energy",
                     "15,000 m²", Pending, "€12.8M", Some([])) ]
  }

  // ---------------------------------------------------------------------
  // Lower-casing (restricted to ASCII letters)
  // ---------------------------------------------------------------------

  predicate IsUpperAscii(c: char) { 'A' <= c <= 'Z' }

  function LowerChar(c: char): (d: char)
    ensures IsUpperAscii(c) ==> d as int == c as int + 32
    ensures !IsUpperAscii(c) ==> d == c
    ensures !IsUpperAscii(d)
  {
    if IsUpperAscii(c) then (c as int + 32) as char else c
  }

  /** `toLowerCase`, character by character. */
  function Lower(s: string): (r: string)
    ensures |r| == |s|
    ensures forall i :: 0 <= i < |s| ==> r[i] == LowerChar(s[i])
  {
    if s == [] then [] else [LowerChar(s[0])] + Lower(s[1..])
  }

  lemma {:induction false} LowerIdempotent(s: string)
    ensures Lower(Lower(s)) == Lower(s)
  {
    var l := Lower(s);
    assert forall i :: 0 <= i < |l| ==> Lower(l)[i] == l[i];
  }

  // ---------------------------------------------------------------------
  // Substring search (`String.prototype.includes`)
  // ---------------------------------------------------------------------

  /** `t` occurs in `s` starting at index `i`. */
  predicate OccursAt(s: string, t: string, i: int)
  {
    0 <= i && i + |t| <= |s| && s[i..i + |t|] == t
  }

  /** `s.includes(t)`: scan the start positions of `s` from left to right. */
  function Includes(s: string, t: string): (found: bool)
    ensures t <= s ==> found
    ensures found ==> |t| <= |s|
    decreases |s|
  {
    t <= s || (s != [] && Includes(s[1..], t))
  }

  /** `Includes` holds exactly when `t` occurs at some position of `s`. */
  lemma {:induction false} IncludesIffOccurs(s: string, t: string)
    ensures Includes(s, t) <==> exists i :: OccursAt(s, t, i)
    decreases |s|
  {
    if t <= s {
      assert OccursAt(s, t, 0);
    } else if s != [] {
      IncludesIffOccurs(s[1..], t);
      if exists i :: OccursAt(s[1..], t, i) {
        var i :| OccursAt(s[1..], t, i);
        assert s[1..][i..i + |t|] == s[i + 1..i + 1 + |t|];
        assert OccursAt(s, t, i + 1);
      }
      if exists i :: OccursAt(s, t, i) {
        var i :| OccursAt(s, t, i);
        assert i != 0;
        assert s[1..][i - 1..i - 1 + |t|] == s[i..i + |t|];
        assert OccursAt(s[1..], t, i - 1);
      }
    }
  }

  /** Every string contains the empty string. */
  lemma IncludesEmpty(s: string)
    ensures Includes(s, "")
  {
  }

  // ---------------------------------------------------------------------
  // The search filter
  // ---------------------------------------------------------------------

  /** The predicate handed to `MOCK_RECORDS.filter`. */
  function Matches(r: PropertyRecord, term: string): (m: bool)
    ensures Lower(term) == "" ==> m
    ensures m ==> |term| <= |r.id| || |term| <= |r.address|
  {
    Includes(Lower(r.id), Lower(term)) || Includes(Lower(r.address), Lower(term))
  }

  /** `a` is obtained from `b` by deleting some of its elements. */
  predicate SubsequenceOf<T(==)>(a: seq<T>, b: seq<T>)
    decreases |b|
  {
    if a == [] then true
    else if b == [] then false
    else (a[0] == b[0] && SubsequenceOf(a[1..], b[1..])) || SubsequenceOf(a, b[1..])
  }

  lemma {:induction false} SubsequenceLength<T>(a: seq<T>, b: seq<T>)
    requires SubsequenceOf(a, b)
    ensures |a| <= |b|
    decreases |b|
  {
    if a != [] {
      if a[0] == b[0] && SubsequenceOf(a[1..], b[1..]) {
        SubsequenceLength(a[1..], b[1..]);
      } else {
        SubsequenceLength(a, b[1..]);
      }
    }
  }

  /**
   * `records.filter(r => Matches(r, term))`: the records that match, in
   * their original order, each as often as it occurs in `records`.
   */
  function Filter(records: seq<PropertyRecord>, term: string): (res: seq<PropertyRecord>)
    ensures forall x :: x in res ==> x in records && Matches(x, term)
    ensures forall x :: x in records && Matches(x, term) ==> x in res
    ensures forall x :: multiset(res)[x] == if Matches(x, term) then multiset(records)[x] else 0
    ensures SubsequenceOf(res, records)
  {
    if records == [] then []
    else
      var rest := Filter(records[1..], term);
      assert records == [records[0]] + records[1..];
      if Matches(records[0], term) then
        assert ([records[0]] + rest)[1..] == rest;
        [records[0]] + rest
      else rest
  }

  /** What `handleSearch` stores in `results`. */
  function HandleSearch(term: string): (results: seq<PropertyRecord>)
    ensures forall r :: r in results <==> r in MockRecords() && Matches(r, term)
  {
    Filter(MockRecords(), term)
  }

  lemma SearchNeverLonger(term: string)
    ensures |HandleSearch(term)| <= |MockRecords()|
  {
    SubsequenceLength(HandleSearch(term), MockRecords());
  }

  /** An empty search term keeps every record. */
  lemma {:induction false} FilterEmptyTerm(records: seq<PropertyRecord>)
    ensures Filter(records, "") == records
  {
    if records != [] {
      FilterEmptyTerm(records[1..]);
      IncludesEmpty(Lower(records[0].id));
      assert Lower("") == "";
      assert records == [records[0]] + records[1..];
    }
  }

  /** Search terms with the same lower-case form select the same records. */
  lemma {:induction false} FilterCaseInsensitive(records: seq<PropertyRecord>, t1: string, t2: string)
    requires Lower(t1) == Lower(t2)
    ensures Filter(records, t1) == Filter(records, t2)
  {
    if records != [] {
      FilterCaseInsensitive(records[1..], t1, t2);
    }
  }

  // ---------------------------------------------------------------------
  // A search over the fixture
  // ---------------------------------------------------------------------

  /** Every character of an included string occurs in the including one. */
  lemma IncludedCharsOccur(s: string, t: string, c: char)
    requires c in t
    ensures Includes(s, t) ==> c in s
  {
    IncludesIffOccurs(s, t);
    if Includes(s, t) {
      var i :| OccursAt(s, t, i);
      var k :| 0 <= k < |t| && t[k] == c;
      assert s[i..i + |t|][k] == c;
    }
  }

  /** Lower-casing neither creates nor removes characters that are not letters. */
  lemma LowerKeepsNonLetters(s: string, c: char)
    requires !IsUpperAscii(c) && !('a' <= c <= 'z')
    ensures c in Lower(s) <==> c in s
  {
    if c in Lower(s) {
      var i :| 0 <= i < |s| && Lower(s)[i] == c;
      assert s[i] == c;
    }
    if c in s {
      var i :| 0 <= i < |s| && s[i] == c;
      assert Lower(s)[i] == c;
    }
  }

  /** A record whose id and address lack a digit of the term does not match it. */
  lemma DigitAbsentNoMatch(r: PropertyRecord, term: string, k: nat)
    requires k < |term| && '0' <= term[k] <= '9'
    requires term[k] !in r.id && term[k] !in r.address
    ensures !Matches(r, term)
  {
    var c := term[k];
    assert Lower(term)[k] == c;
    LowerKeepsNonLetters(r.id, c);
    LowerKeepsNonLetters(r.address, c);
    IncludedCharsOccur(Lower(r.id), Lower(term), c);
    IncludedCharsOccur(Lower(r.address), Lower(term), c);
  }

  lemma SecondRecordMatches()
    ensures Matches(MockRecords()[1], "sl-105")
  {
    var term, id := "sl-105", MockRecords()[1].id;
    assert "SL-105" <= id;
    assert Lower(term) == Lower("SL-105");
    assert Lower("SL-105") <= Lower(id);
  }

  lemma FirstRecordMisses()
    ensures !Matches(MockRecords()[0], "sl-105")
  {
    DigitAbsentNoMatch(MockRecords()[0], "sl-105", 5);
  }

  lemma ThirdRecordMisses()
    ensures !Matches(MockRecords()[2], "sl-105")
  {
    DigitAbsentNoMatch(MockRecords()[2], "sl-105", 5);
  }

  /** Searching "sl-105" finds exactly the parcel SL-105-12-B. */
  lemma SearchFindsOneParcel()
    ensures HandleSearch("sl-105") == [MockRecords()[1]]
  {
    var rs, term := MockRecords(), "sl-105";
    FirstRecordMisses();
    ThirdRecordMisses();
    SecondRecordMatches();
    assert Filter(rs[2..], term) == [] by { assert rs[2..][1..] == []; }
    assert Filter(rs[1..], term) == [rs[1]] by { assert rs[1..][1..] == rs[2..]; }
  }
}
