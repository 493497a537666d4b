/** Part grants, and the check a completion list must pass before the provider assembles the archive. */
module Multipart {
  import opened Options
  import opened Sequences
  import opened Sorting
  import opened Policy
  import opened Uploads

  datatype Part = Part(number: int, etag: string)
  datatype CompletedPart = CompletedPart(number: int, etag: string, checksum: string)

  predicate IsEtagChar(c: char) {
    '0' <= c <= '9' || 'a' <= c <= 'f' || 'A' <= c <= 'F' || c == '-'
  }

  /** An optional quote on either side of 16 to 80 hexadecimal digits or dashes. */
  predicate IsEtag(etag: string) {
    var left := if etag != [] && etag[0] == '"' then etag[1..] else etag;
    var body := if left != [] && left[|left| - 1] == '"' then left[..|left| - 1] else left;
    16 <= |body| <= 80 && forall c :: c in body ==> IsEtagChar(c)
  }

  function NumberKey(n: int): Key { (n, 0) }

  function PartNumber(part: Part): int { part.number }

  function SortedNumbers(parts: seq<Part>): seq<int> { StableSort(Map(parts, PartNumber), NumberKey) }

  function ValidateParts(parts: seq<Part>, record: Upload): Result<seq<CompletedPart>, string> {
    match DecideUpload(record.sizeBytes, record.createdAt)
    case Err(error) => Err(error)
    case Ok(decision) =>
      var numbers := SortedNumbers(parts);
      if |parts| != decision.partCount then
        Err("Multipart completion did not include every declared part.")
      else if exists i :: 0 <= i < |numbers| && numbers[i] != i + 1 then
        Err("Multipart parts are incomplete or duplicated.")
      else if exists part :: part in parts && !IsEtag(part.etag) then
        Err("Multipart ETag was malformed.")
      else if exists part :: part in parts && part.number !in record.multipartParts then
        Err("Multipart completion used a part without a bound grant.")
      else
        Ok(seq(|parts|, i requires 0 <= i < |parts| && parts[i].number in record.multipartParts =>
          CompletedPart(parts[i].number, parts[i].etag, record.multipartParts[parts[i].number].sha256)))
  }

  predicate IsQuote(t: string) { t == "" || t == "\"" }

  predicate IsEtagBody(body: string) {
    16 <= |body| <= 80 && forall c :: c in body ==> '0' <= c <= '9' || 'a' <= c <= 'f' || 'A' <= c <= 'F' || c == '-'
  }

  ghost predicate Quoted(etag: string) {
    exists left, body, right :: etag == left + body + right && IsQuote(left) && IsQuote(right) && IsEtagBody(body)
  }

  lemma EtagIsQuoted(etag: string)
    requires IsEtag(etag)
    ensures Quoted(etag)
  {
    var rest := if etag != [] && etag[0] == '"' then etag[1..] else etag;
    var body := if rest != [] && rest[|rest| - 1] == '"' then rest[..|rest| - 1] else rest;
    var left, right := etag[..|etag| - |rest|], rest[|body|..];
    assert IsEtagBody(body) by {
      forall c | c in body ensures '0' <= c <= '9' || 'a' <= c <= 'f' || 'A' <= c <= 'F' || c == '-' {
        assert IsEtagChar(c);
      }
    }
    hide IsEtagBody;
    assert etag == left + body + right;
  }

  lemma BodyHasNoQuote(body: string)
    requires IsEtagBody(body)
    ensures body != [] && body[0] != '"' && body[|body| - 1] != '"' && forall c :: c in body ==> IsEtagChar(c)
  {
    assert body[0] in body && body[|body| - 1] in body;
  }

  lemma QuotedIsEtag(left: string, body: string, right: string)
    requires IsQuote(left) && IsQuote(right) && IsEtagBody(body)
    ensures IsEtag(left + body + right)
  {
    BodyHasNoQuote(body);
    assert 16 <= |body| <= 80;
    hide IsEtagBody, IsEtagChar;
    var etag, rest := left + body + right, body + right;
    assert etag == left + rest && rest[0] == body[0];
    assert left != "" ==> etag[0] == '"' && etag[1..] == rest;
    assert right == "" ==> rest == body;
    assert right != "" ==> rest[|rest| - 1] == '"' && rest[..|rest| - 1] == body;
  }

  /** An ETag is 16 to 80 hexadecimal digits or dashes, with at most one quote on either side. */
  lemma EtagExactly(etag: string)
    ensures IsEtag(etag) <==>
      exists left, body, right :: etag == left + body + right && IsQuote(left) && IsQuote(right) && IsEtagBody(body)
  {
    hide IsEtag, IsEtagBody, IsQuote;
    if IsEtag(etag) { EtagIsQuoted(etag); }
    if left, body, right :| etag == left + body + right && IsQuote(left) && IsQuote(right) && IsEtagBody(body) {
      QuotedIsEtag(left, body, right);
    }
  }

  /** Parts hold 128 MiB each, the last of them what is left; there are as many as that takes. */
  lemma PartsExactly(sizeBytes: nat, n: int)
    ensures (PartCount(sizeBytes) - 1) * 134_217_728 < sizeBytes <= PartCount(sizeBytes) * 134_217_728 || sizeBytes == 0
    ensures sizeBytes == 0 ==> PartCount(sizeBytes) == 0
    ensures 1 <= n < PartCount(sizeBytes) ==> PartLength(sizeBytes, n) == 134_217_728
    ensures 1 <= n == PartCount(sizeBytes) ==> PartLength(sizeBytes, n) == sizeBytes - (n - 1) * 134_217_728
  {
  }

  // ------------------------------------------------------------------ what acceptance means

  /** Every registered grant has exactly the length its part number requires. */
  ghost predicate GrantsFit(u: Upload) {
    forall n :: n in u.multipartParts ==>
      1 <= n <= PartCount(u.sizeBytes) && u.multipartParts[n].sizeBytes == PartLength(u.sizeBytes, n)
  }

  /** The list names each of 1..count exactly once, in any order. */
  ghost predicate UsesEachOnce(parts: seq<Part>, count: nat) {
    && |parts| == count
    && (forall i :: 0 <= i < |parts| ==> 1 <= parts[i].number <= count)
    && (forall i, j :: 0 <= i < j < |parts| ==> parts[i].number != parts[j].number)
  }

  function GrantedLength(record: Upload): int -> nat {
    n => if n in record.multipartParts then record.multipartParts[n].sizeBytes else 0
  }

  function UpTo(count: nat): (ns: seq<int>)
    ensures |ns| == count && forall i :: 0 <= i < count ==> ns[i] == i + 1
  {
    seq(count, i => i + 1)
  }

  lemma SortedLength(parts: seq<Part>)
    ensures |SortedNumbers(parts)| == |parts|
  {
    SortedContents(Map(parts, PartNumber), NumberKey);
  }

  /** What the four tests of ValidateParts come to. */
  lemma AcceptanceTests(parts: seq<Part>, record: Upload)
    requires record.sizeBytes <= MAXIMUM_ARCHIVE_BYTES
    ensures ValidateParts(parts, record).Ok? <==>
              && |parts| == PartCount(record.sizeBytes)
              && SortedNumbers(parts) == UpTo(|parts|)
              && (forall part :: part in parts ==> IsEtag(part.etag) && part.number in record.multipartParts)
  {
    hide IsEtag, SortedNumbers;
    SortedLength(parts);
    var numbers := SortedNumbers(parts);
    assert numbers == UpTo(|parts|) <==> !exists i :: 0 <= i < |numbers| && numbers[i] != i + 1;
  }

  /**
   * A completion list is accepted exactly when it uses every declared part once, in any order, its ETags are
   * well formed and every part has a grant.
   */
  lemma AcceptedIffEachPartOnce(parts: seq<Part>, record: Upload)
    requires record.sizeBytes <= MAXIMUM_ARCHIVE_BYTES
    ensures ValidateParts(parts, record).Ok? <==>
              && UsesEachOnce(parts, PartCount(record.sizeBytes))
              && (forall part :: part in parts ==> IsEtag(part.etag) && part.number in record.multipartParts)
  {
    hide ValidateParts, IsEtag, SortedNumbers, UsesEachOnce;
    AcceptanceTests(parts, record);
    SortedIsUpToIffEachOnce(parts, PartCount(record.sizeBytes));
  }

  /**
   * Each part of an accepted list carries the checksum bound when it was granted, and the granted lengths of
   * the listed parts add up to exactly the declared archive size.
   */
  lemma AcceptedListCoversTheArchive(parts: seq<Part>, record: Upload)
    requires record.sizeBytes <= MAXIMUM_ARCHIVE_BYTES && GrantsFit(record)
    requires ValidateParts(parts, record).Ok?
    ensures var completed := ValidateParts(parts, record).value;
            && |completed| == |parts|
            && forall i :: 0 <= i < |parts| ==>
                 && parts[i].number in record.multipartParts
                 && completed[i] == CompletedPart(parts[i].number, parts[i].etag,
                                                  record.multipartParts[parts[i].number].sha256)
    ensures Sum(Map(parts, PartNumber), GrantedLength(record)) == record.sizeBytes
  {
    AcceptedIffEachPartOnce(parts, record);
    assert forall i :: 0 <= i < |parts| ==> parts[i] in parts;
    AcceptedSum(parts, record);
  }

  lemma AcceptedSum(parts: seq<Part>, record: Upload)
    requires GrantsFit(record) && UsesEachOnce(parts, PartCount(record.sizeBytes))
    requires forall part :: part in parts ==> part.number in record.multipartParts
    ensures Sum(Map(parts, PartNumber), GrantedLength(record)) == record.sizeBytes
  {
    var count := PartCount(record.sizeBytes);
    var named := Map(parts, PartNumber);
    var numbers := SortedNumbers(parts);
    SortedContents(named, NumberKey);
    SortedIsUpToIffEachOnce(parts, count);
    SumPermutation(named, numbers, GrantedLength(record));
    forall n | 1 <= n <= count ensures n in record.multipartParts {
      assert numbers[n - 1] in named;
      var i :| 0 <= i < |named| && named[i] == n;
      assert parts[i] in parts;
    }
    LengthsAddUp(record, count);
  }

  lemma SortedIsUpToIffEachOnce(parts: seq<Part>, count: nat)
    ensures UsesEachOnce(parts, count) <==> |parts| == count && SortedNumbers(parts) == UpTo(count)
  {
    hide UsesEachOnce, SortedNumbers, UpTo;
    if |parts| == count && SortedNumbers(parts) == UpTo(count) {
      EachOnceIfSorted(parts, count);
    }
    if UsesEachOnce(parts, count) {
      SortedIfEachOnce(parts, count);
    }
  }

  lemma EachOnceIfSorted(parts: seq<Part>, count: nat)
    requires |parts| == count && SortedNumbers(parts) == UpTo(count)
    ensures UsesEachOnce(parts, count)
  {
    var named := Map(parts, PartNumber);
    var numbers := UpTo(count);
    SortedContents(named, NumberKey);
    hide StableSort;
    forall i | 0 <= i < |parts| ensures 1 <= parts[i].number <= count {
      assert named[i] in numbers;
    }
    forall i, j | 0 <= i < j < |parts| ensures parts[i].number != parts[j].number {
      if parts[i].number == parts[j].number {
        CountTwice(named, i, j);
        DistinctCount(numbers, named[i]);
      }
    }
  }

  lemma SortedIfEachOnce(parts: seq<Part>, count: nat)
    requires UsesEachOnce(parts, count)
    ensures |parts| == count && SortedNumbers(parts) == UpTo(count)
  {
    var named := Map(parts, PartNumber);
    SortedContents(named, NumberKey);
    StableSortSorted(named, NumberKey);
    hide StableSort, SortedByKey;
    forall i, j | 0 <= i < j < |named| ensures named[i] != named[j] {
      assert parts[i].number != parts[j].number;
    }
    StrictlyIncreasing(SortedNumbers(parts), count);
  }

  /** count distinct numbers between 1 and count, in order, are 1..count. */
  lemma StrictlyIncreasing(numbers: seq<int>, count: nat)
    requires |numbers| == count && SortedByKey(numbers, NumberKey) && Distinct(numbers)
    requires forall n :: n in numbers ==> 1 <= n <= count
    ensures numbers == UpTo(count)
  {
    forall i | 0 <= i < count ensures numbers[i] >= i + 1 {
      AtLeastIndex(numbers, count, i);
    }
    forall i | 0 <= i < count ensures numbers[i] <= i + 1 {
      AtMostIndex(numbers, count, i);
    }
  }

  lemma {:induction false} AtLeastIndex(numbers: seq<int>, count: nat, i: nat)
    requires |numbers| == count && SortedByKey(numbers, NumberKey) && Distinct(numbers) && i < count
    requires forall n :: n in numbers ==> 1 <= n <= count
    ensures numbers[i] >= i + 1
  {
    assert numbers[i] in numbers;
    if i > 0 {
      AtLeastIndex(numbers, count, i - 1);
      assert !KeyLess(NumberKey(numbers[i]), NumberKey(numbers[i - 1]));
      assert numbers[i - 1] != numbers[i];
    }
  }

  lemma {:induction false} AtMostIndex(numbers: seq<int>, count: nat, i: nat)
    requires |numbers| == count && SortedByKey(numbers, NumberKey) && Distinct(numbers) && i < count
    requires forall n :: n in numbers ==> 1 <= n <= count
    ensures numbers[i] <= i + 1
    decreases count - i
  {
    assert numbers[i] in numbers;
    if i + 1 < count {
      AtMostIndex(numbers, count, i + 1);
      assert !KeyLess(NumberKey(numbers[i + 1]), NumberKey(numbers[i]));
      assert numbers[i] != numbers[i + 1];
    }
  }

  lemma LengthOfPart(size: nat, count: nat, k: nat)
    requires count == PartCount(size) && 1 <= k <= count
    ensures PartLength(size, k) == if k < count then PART_BYTES else size - (k - 1) * PART_BYTES
  {
    assert (count - 1) * PART_BYTES < size <= count * PART_BYTES;
    if k < count {
      assert k * PART_BYTES <= (count - 1) * PART_BYTES;
    }
  }

  /** The first k parts hold k full parts' worth of bytes, or the whole archive. */
  lemma {:induction false} LengthsAddUpTo(record: Upload, count: nat, k: nat)
    requires GrantsFit(record) && count == PartCount(record.sizeBytes) && k <= count
    requires forall n :: 1 <= n <= count ==> n in record.multipartParts
    ensures Sum(UpTo(k), GrantedLength(record)) == if k < count then k * PART_BYTES else record.sizeBytes
  {
    if k > 0 {
      LengthsAddUpTo(record, count, k - 1);
      assert UpTo(k) == UpTo(k - 1) + [k];
      SumAppend(UpTo(k - 1), [k], GrantedLength(record));
      assert Sum([k], GrantedLength(record)) == PartLength(record.sizeBytes, k);
      LengthOfPart(record.sizeBytes, count, k);
    } else if count == 0 {
      assert record.sizeBytes == 0;
    }
  }

  lemma LengthsAddUp(record: Upload, count: nat)
    requires GrantsFit(record) && count == PartCount(record.sizeBytes)
    requires forall n :: 1 <= n <= count ==> n in record.multipartParts
    ensures Sum(UpTo(count), GrantedLength(record)) == record.sizeBytes
  {
    LengthsAddUpTo(record, count, count);
  }
}
