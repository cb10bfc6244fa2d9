/** Reading a recorded rejection: which transaction, if any, an already-spent refusal blames. */
module Rejections {
  import opened Wrappers

  /** Arcade's name for "an input was already spent", and the words that name the spender. */
  const MARKER := "utxo_spent"
  const PHRASE := "utxo already spent by tx"

  /** What this program wraps around a failure that happened before anything was signed. */
  const NOT_BROADCAST_PREFIX := "chain: not broadcast: "

  const TXID_DIGITS: nat := 64

  // ---- meaning ---------------------------------------------------------------------

  /** Only A to Z, the Kelvin sign and the dotted capital I have a lower case in ASCII. What other letters
      become is never compared with anything, so they stay as they are. */
  function LowerChar(c: char): char {
    if 'A' <= c <= 'Z' then (c as int + 32) as char
    else if c == '\U{212A}' then 'k'
    else if c == '\U{0130}' then 'i'
    else c
  }

  function Lower(s: string): (t: string)
    ensures |t| == |s|
  {
    seq(|s|, i requires 0 <= i < |s| => LowerChar(s[i]))
  }

  predicate OccursAt(s: string, sub: string, p: int) {
    0 <= p <= |s| - |sub| && s[p..p + |sub|] == sub
  }

  ghost predicate Contains(s: string, sub: string) {
    exists p :: OccursAt(s, sub, p)
  }

  predicate IsHexDigit(c: char) {
    '0' <= c <= '9' || 'a' <= c <= 'f'
  }

  predicate IsSeparator(c: char) {
    c == ' ' || c == '\t' || c == ':'
  }

  function ZeroTxID(): string {
    seq(TXID_DIGITS, _ => '0')
  }

  /** The first position at or after p that is not a separator. */
  ghost predicate IsSkip(s: string, p: nat, q: nat) {
    && p <= q <= |s|
    && (forall i :: p <= i < q ==> IsSeparator(s[i]))
    && (q < |s| ==> !IsSeparator(s[q]))
  }

  /** A maximal run of exactly 64 hex digits starting at p, not the null hash. */
  ghost predicate IsTxIDAt(s: string, p: nat, t: TxID) {
    && p + TXID_DIGITS <= |s| && t == s[p..p + TXID_DIGITS] && t != ZeroTxID()
    && (forall i :: p <= i < p + TXID_DIGITS ==> IsHexDigit(s[i]))
    && (p + TXID_DIGITS < |s| ==> !IsHexDigit(s[p + TXID_DIGITS]))
  }

  /** The occurrence of the phrase at p is followed by t. */
  ghost predicate NamesAt(s: string, p: int, t: TxID) {
    exists q: nat :: p >= 0 && IsSkip(s, p + |PHRASE|, q) && IsTxIDAt(s, q, t)
  }

  /** The message is an already-spent refusal, it names a spender, and every place that names one names t. */
  ghost predicate Names(rejection: string, t: TxID) {
    var s := Lower(rejection);
    && Contains(s, MARKER)
    && Contains(s, PHRASE)
    && forall p :: OccursAt(s, PHRASE, p) ==> NamesAt(s, p, t)
  }

  lemma NameAtUnique(s: string, p: int, t: TxID, u: TxID)
    ensures NamesAt(s, p, t) && NamesAt(s, p, u) ==> t == u
  {
    if NamesAt(s, p, t) && NamesAt(s, p, u) {
      var q: nat :| IsSkip(s, p + |PHRASE|, q) && IsTxIDAt(s, q, t);
      var r: nat :| IsSkip(s, p + |PHRASE|, r) && IsTxIDAt(s, r, u);
      assert q == r;
    }
  }

  lemma NamesUnique(rejection: string, t: TxID, u: TxID)
    requires Names(rejection, t) && Names(rejection, u)
    ensures t == u
  {
    var p :| OccursAt(Lower(rejection), PHRASE, p);
    NameAtUnique(Lower(rejection), p, t, u);
  }

  ghost function SpentBy(rejection: string): (r: Option<TxID>)
    ensures forall t :: r == Some(t) <==> Names(rejection, t)
  {
    if t :| Names(rejection, t) then
      assert forall u | Names(rejection, u) :: u == t by {
        forall u | Names(rejection, u) ensures u == t { NamesUnique(rejection, t, u); }
      }
      Some(t)
    else None
  }

  ghost predicate IsUTXOSpent(rejection: string) {
    Contains(Lower(rejection), MARKER)
  }

  predicate IsNotBroadcast(recorded: string) {
    NOT_BROADCAST_PREFIX <= recorded
  }

  // ---- the parser ------------------------------------------------------------------

  /** The first occurrence of sub in s, or -1. */
  method Index(s: string, sub: string) returns (i: int)
    ensures i >= 0 ==> OccursAt(s, sub, i)
    ensures forall p :: OccursAt(s, sub, p) ==> 0 <= i <= p
  {
    i := 0;
    while i + |sub| <= |s|
      invariant 0 <= i
      invariant forall p :: OccursAt(s, sub, p) ==> i <= p
    {
      if s[i..i + |sub|] == sub { return; }
      i := i + 1;
    }
    i := -1;
  }

  method SkipSeparators(s: string) returns (q: nat)
    ensures IsSkip(s, 0, q)
  {
    q := 0;
    while q < |s| && IsSeparator(s[q])
      invariant q <= |s| && forall i :: 0 <= i < q ==> IsSeparator(s[i])
    {
      q := q + 1;
    }
  }

  /** Reads a transaction id off the front: exactly 64 digits, no more and no fewer. */
  method LeadingTxID(s: string) returns (r: Option<TxID>)
    ensures forall t :: r == Some(t) <==> IsTxIDAt(s, 0, t)
  {
    var n := 0;
    while n < |s| && IsHexDigit(s[n])
      invariant n <= |s| && forall i :: 0 <= i < n ==> IsHexDigit(s[i])
    {
      n := n + 1;
    }
    if n != TXID_DIGITS {
      forall t ensures !IsTxIDAt(s, 0, t) {
        assert n < |s| ==> !IsHexDigit(s[n]);
      }
      return None;
    }
    var txid := s[..TXID_DIGITS];
    if txid == ZeroTxID() { return None; }
    r := Some(txid);
  }

  /** The phrase cannot overlap itself, and no separator or part of it can start another. */
  lemma NextOccurrence(s: string, i: int, q: nat, p: int)
    requires OccursAt(s, PHRASE, i) && IsSkip(s, i + |PHRASE|, q)
    requires OccursAt(s, PHRASE, p) && p > i
    ensures p >= q
  {
    assert s[p] == s[p..p + |PHRASE|][0] == 'u';
    forall k | i < k < i + |PHRASE| ensures s[k] != 'u' {
      assert s[k] == s[i..i + |PHRASE|][k - i];
    }
  }

  lemma SuffixViews(s: string, off: nat, i: int, q: nat)
    requires off <= |s|
    ensures OccursAt(s[off..], PHRASE, i) <==> i >= 0 && OccursAt(s, PHRASE, off + i)
    ensures IsSkip(s[off..], 0, q) <==> IsSkip(s, off, off + q)
    ensures forall t :: IsTxIDAt(s[off..], 0, t) <==> IsTxIDAt(s, off, t)
  {
    var rest := s[off..];
    if 0 <= i <= |rest| - |PHRASE| {
      assert rest[i..i + |PHRASE|] == s[off + i..off + i + |PHRASE|];
    }
    assert forall k :: 0 <= k < |rest| ==> rest[k] == s[off + k];
    assert forall k :: off <= k < |s| ==> s[k] == rest[k - off];
    if off + TXID_DIGITS <= |s| {
      assert rest[0..TXID_DIGITS] == s[off..off + TXID_DIGITS];
    }
  }

  /** Every occurrence before off has been read, and they all said found ("" when there were none). */
  ghost predicate ReadUpTo(s: string, off: nat, found: TxID) {
    && (found == "" ==> forall p :: OccursAt(s, PHRASE, p) ==> p >= off)
    && (found != "" ==> (exists p :: OccursAt(s, PHRASE, p) && p < off) && forall p :: OccursAt(s, PHRASE, p) && p < off ==> NamesAt(s, p, found))
  }

  /** What the next occurrence of the phrase at or after some point says. */
  datatype Reading = NoMore | Unreadable(at: nat) | Named(at: nat, txid: TxID, next: nat)

  ghost predicate IsReading(s: string, off: nat, r: Reading) {
    match r
    case NoMore => forall p :: OccursAt(s, PHRASE, p) ==> p < off
    case Unreadable(at) => at >= off && OccursAt(s, PHRASE, at) && forall t :: !NamesAt(s, at, t)
    case Named(at, txid, next) =>
      && off <= at < next <= |s| && OccursAt(s, PHRASE, at) && txid != ""
      && (forall t :: NamesAt(s, at, t) <==> t == txid)
      && forall p :: OccursAt(s, PHRASE, p) && off <= p < next ==> p == at
  }

  /** Reads the name after one occurrence of the phrase, and where to look for the next. */
  method ReadName(s: string, at: nat) returns (next: nat, txid: Option<TxID>)
    requires OccursAt(s, PHRASE, at)
    ensures at < next <= |s| && txid != Some("")
    ensures forall t :: NamesAt(s, at, t) <==> txid == Some(t)
    ensures forall p :: OccursAt(s, PHRASE, p) && at <= p < next ==> p == at
  {
    var after := at + |PHRASE|;
    var q := SkipSeparators(s[after..]);
    SuffixViews(s, after, 0, q);
    next := after + q;
    txid := LeadingTxID(s[next..]);
    SuffixViews(s, next, 0, 0);
    forall t ensures NamesAt(s, at, t) <==> txid == Some(t) { SkipUnique(s, at, next, t); }
    forall p | OccursAt(s, PHRASE, p) && at <= p < next ensures p == at {
      if p > at { NextOccurrence(s, at, next, p); }
    }
  }

  method ReadNext(s: string, off: nat) returns (r: Reading)
    requires off <= |s|
    ensures IsReading(s, off, r)
  {
    var i := Index(s[off..], PHRASE);
    NothingSkipped(s, off, i);
    if i < 0 { return NoMore; }
    var next, txid := ReadName(s, off + i);
    if txid.None? { return Unreadable(off + i); }
    r := Named(off + i, txid.value, next);
  }

  method CheckUTXOSpent(rejection: string) returns (spent: bool)
    ensures spent <==> IsUTXOSpent(rejection)
  {
    var i := Index(Lower(rejection), MARKER);
    spent := i >= 0;
  }

  /** Which transaction an already-spent rejection blames, whatever wrapping the message carries. */
  method ParseSpentBy(rejection: string) returns (r: Option<TxID>)
    ensures r == SpentBy(rejection)
  {
    var s := Lower(rejection);
    var marked := Index(s, MARKER);
    if marked < 0 { return None; }
    var found := "";
    var off := 0;
    var next := ReadNext(s, off);
    while next != NoMore
      invariant off <= |s| && ReadUpTo(s, off, found) && IsReading(s, off, next)
      decreases |s| - off
    {
      if next.Unreadable? || (found != "" && found != next.txid) {
        forall t ensures !Names(rejection, t) { Refutes(s, off, found, next, rejection, t); }
        return None;
      }
      found := next.txid;
      off := next.next;
      next := ReadNext(s, off);
    }
    if found == "" { return None; }
    assert Names(rejection, found);
    r := Some(found);
  }

  lemma NothingSkipped(s: string, off: nat, i: int)
    requires off <= |s|
    requires i >= 0 ==> OccursAt(s[off..], PHRASE, i)
    requires forall p :: OccursAt(s[off..], PHRASE, p) ==> 0 <= i <= p
    ensures i >= 0 ==> OccursAt(s, PHRASE, off + i)
    ensures forall p :: OccursAt(s, PHRASE, p) && p >= off ==> i >= 0 && p >= off + i
  {
    if i >= 0 { SuffixViews(s, off, i, 0); }
    forall p | OccursAt(s, PHRASE, p) && p >= off ensures i >= 0 && p >= off + i {
      SuffixViews(s, off, p - off, 0);
    }
  }

  lemma SkipUnique(s: string, p: nat, q: nat, t: TxID)
    requires IsSkip(s, p + |PHRASE|, q)
    ensures NamesAt(s, p, t) <==> IsTxIDAt(s, q, t)
  {
    if NamesAt(s, p, t) {
      var k: nat :| IsSkip(s, p + |PHRASE|, k) && IsTxIDAt(s, k, t);
      assert k == q;
    }
  }

  /** One occurrence that names nothing, or a second name, defeats every candidate. */
  lemma Refutes(s: string, off: nat, found: TxID, next: Reading, rejection: string, t: TxID)
    requires s == Lower(rejection) && ReadUpTo(s, off, found) && IsReading(s, off, next)
    requires next.Unreadable? || (next.Named? && found != "" && found != next.txid)
    ensures !Names(rejection, t)
  {
    assert OccursAt(s, PHRASE, next.at);
    if next.Named? && t == next.txid {
      var p :| OccursAt(s, PHRASE, p) && p < off;
      NameAtUnique(s, p, t, found);
    }
  }

  /** Wrapping a message in any prefix that adds no further occurrence of the phrase changes nothing. */
  lemma PrefixIrrelevant(prefix: string, rejection: string)
    requires SpentBy(rejection).Some?
    requires forall p :: OccursAt(Lower(prefix + rejection), PHRASE, p) ==> p >= |prefix|
    ensures SpentBy(prefix + rejection) == SpentBy(rejection)
  {
    var t := SpentBy(rejection).value;
    LoweredSuffix(prefix, rejection);
    ShiftedContains(Lower(prefix + rejection), |prefix|, Lower(rejection), MARKER);
    ShiftedContains(Lower(prefix + rejection), |prefix|, Lower(rejection), PHRASE);
    ShiftedReading(prefix, Lower(prefix + rejection), Lower(rejection), t);
    assert Names(prefix + rejection, t);
  }

  lemma ShiftedContains(whole: string, off: nat, s: string, sub: string)
    requires off <= |whole| && whole[off..] == s && Contains(s, sub)
    ensures Contains(whole, sub)
  {
    var p :| OccursAt(s, sub, p);
    ShiftedOccurrence(whole, off, s, sub, p);
  }

  lemma ShiftedReading(prefix: string, whole: string, s: string, t: TxID)
    requires |whole| == |prefix| + |s| && whole[|prefix|..] == s
    requires forall p :: OccursAt(whole, PHRASE, p) ==> p >= |prefix|
    requires forall p :: OccursAt(s, PHRASE, p) ==> NamesAt(s, p, t)
    ensures forall p :: OccursAt(whole, PHRASE, p) ==> NamesAt(whole, p, t)
  {
    forall p | OccursAt(whole, PHRASE, p) ensures NamesAt(whole, p, t) {
      ShiftedOccurrence(whole, |prefix|, s, PHRASE, p - |prefix|);
      ShiftedNames(prefix, whole, s, p - |prefix|, t);
    }
  }

  lemma LoweredSuffix(prefix: string, rejection: string)
    ensures Lower(prefix + rejection)[|prefix|..] == Lower(rejection)
  {}

  lemma ShiftedOccurrence(whole: string, off: nat, s: string, sub: string, p: int)
    requires off <= |whole| && whole[off..] == s && p >= 0
    ensures OccursAt(s, sub, p) <==> OccursAt(whole, sub, off + p)
  {
    if p <= |s| - |sub| { assert s[p..p + |sub|] == whole[off + p..off + p + |sub|]; }
  }

  lemma ShiftedNames(prefix: string, whole: string, s: string, p: nat, t: TxID)
    requires |whole| == |prefix| + |s| && whole[|prefix|..] == s && NamesAt(s, p, t)
    ensures NamesAt(whole, |prefix| + p, t)
  {
    var q: nat :| IsSkip(s, p + |PHRASE|, q) && IsTxIDAt(s, q, t);
    ShiftedName(prefix, whole, s, p + |PHRASE|, q, t);
  }

  lemma ShiftedName(prefix: string, whole: string, s: string, p: nat, q: nat, t: TxID)
    requires |whole| == |prefix| + |s| && whole[|prefix|..] == s
    requires IsSkip(s, p, q) && IsTxIDAt(s, q, t)
    ensures IsSkip(whole, |prefix| + p, |prefix| + q) && IsTxIDAt(whole, |prefix| + q, t)
  {
    assert forall k :: |prefix| <= k < |whole| ==> whole[k] == s[k - |prefix|];
    assert whole[|prefix| + q..|prefix| + q + TXID_DIGITS] == s[q..q + TXID_DIGITS];
  }

  // ---- the messages themselves ----------------------------------------------------------

  /** Each letter keeps its place in the alphabet, two letters from outside it come in, and the rest of ASCII
      stays as it is. */
  lemma LowerLetters(c: char)
    ensures 'A' <= c <= 'Z' ==> 'a' <= LowerChar(c) <= 'z' && LowerChar(c) as int - 'a' as int == c as int - 'A' as int
    ensures c as int < 128 && !('A' <= c <= 'Z') ==> LowerChar(c) == c
    ensures LowerChar('\U{212A}') == 'k' && LowerChar('\U{0130}') == 'i'
    ensures c as int >= 128 && c != '\U{212A}' && c != '\U{0130}' ==> LowerChar(c) as int >= 128
  {}

  lemma HexDigits(c: char)
    ensures IsHexDigit(c) <==> c in "0123456789abcdef"
  {
    var digits := "0123456789abcdef";
    if '0' <= c <= '9' { assert digits[c as int - '0' as int] == c; }
    if 'a' <= c <= 'f' { assert digits[c as int - 'a' as int + 10] == c; }
  }

  /** Lower-case hexadecimal, at least one digit of it. */
  predicate IsHex(id: string) {
    id != "" && forall c :: c in id ==> c in "0123456789abcdef"
  }

  predicate IsName(id: string) {
    |id| == 64 && exists i :: 0 <= i < |id| && id[i] != '0'
  }

  /** What may stand before the phrase: an already-spent code, and no other beginning of the phrase. */
  ghost predicate LeadsUp(before: string) {
    && (exists p :: OccursAt(Lower(before), "utxo_spent", p))
    && forall i :: 0 <= i < |before| && Lower(before)[i] == 'u' ==> i + 4 < |before| && Lower(before)[i + 4] != ' '
  }

  /** What may follow the name: nothing that reads as more of it, and nothing that reads as another. */
  ghost predicate Ends(rest: string) {
    && (rest != "" ==> Lower(rest)[0] !in "0123456789abcdef")
    && forall i :: 0 <= i < |rest| ==> Lower(rest)[i] != 'u'
  }

  lemma LowerHex(id: string)
    requires IsHex(id)
    ensures Lower(id) == id && forall i :: 0 <= i < |id| ==> IsHexDigit(id[i]) && !IsSeparator(id[i]) && id[i] != 'u'
  {
    forall i | 0 <= i < |id| ensures IsHexDigit(id[i]) { HexDigits(id[i]); assert id[i] in id; }
  }

  lemma RunIsName(s: string, q: nat, id: string, t: TxID)
    requires q + |id| <= |s| && s[q..q + |id|] == id && (q + |id| < |s| ==> !IsHexDigit(s[q + |id|]))
    requires forall i :: 0 <= i < |id| ==> IsHexDigit(id[i])
    ensures IsTxIDAt(s, q, t) <==> t == id && IsName(id)
  {
    assert forall k :: q <= k < q + |id| ==> s[k] == s[q..q + |id|][k - q] == id[k - q];
    assert IsName(id) <==> |id| == 64 && id != ZeroTxID();
  }

  /** A run of digits right after the phrase and a space names exactly itself, if it is a transaction's name. */
  lemma NameAfter(s: string, p: nat, id: string)
    requires OccursAt(s, PHRASE, p) && IsHex(id)
    requires var q := p + |PHRASE| + 1; q + |id| <= |s| && s[q - 1] == ' ' && s[q..q + |id|] == id
                                        && (q + |id| < |s| ==> !IsHexDigit(s[q + |id|]))
    ensures forall t :: NamesAt(s, p, t) <==> t == id && IsName(id)
  {
    var q := p + |PHRASE| + 1;
    LowerHex(id);
    assert s[q] == s[q..q + |id|][0] == id[0];
    assert IsSkip(s, p + |PHRASE|, q);
    forall t ensures NamesAt(s, p, t) <==> t == id && IsName(id) {
      SkipUnique(s, p, q, t);
      RunIsName(s, q, id, t);
    }
  }

  /** An already-spent refusal, whatever leads up to the phrase and however it is cased, is read exactly when
      the digits after it are a name: 64 of them, not all zero. */
  lemma ReadsRefusal(before: string, phrase: string, id: string, rest: string)
    requires LeadsUp(before) && Lower(phrase) == "utxo already spent by tx " && IsHex(id) && Ends(rest)
    ensures SpentBy(before + phrase + id + rest) == if IsName(id) then Some(id) else None
  {
    var msg, p := before + phrase + id + rest, |before|;
    var s := Lower(msg);
    RefusalParts(before, phrase, id, rest, s);
    NameAfter(s, p, id);
    forall k | OccursAt(s, PHRASE, k) ensures k == p { OnlyPhrase(before, phrase, id, rest, s, k); }
    assert forall t :: Names(msg, t) <==> NamesAt(s, p, t);
  }

  lemma LoweredParts(before: string, phrase: string, id: string, rest: string, s: string)
    requires IsHex(id) && s == Lower(before + phrase + id + rest)
    ensures var (p, q) := (|before|, |before| + |phrase|);
            |s| == q + |id| + |rest| && s[..p] == Lower(before) && s[p..q] == Lower(phrase) && s[q..q + |id|] == id && s[q + |id|..] == Lower(rest)
  {
    LowerHex(id);
  }

  lemma RefusalParts(before: string, phrase: string, id: string, rest: string, s: string)
    requires LeadsUp(before) && Lower(phrase) == "utxo already spent by tx " && IsHex(id) && Ends(rest)
    requires s == Lower(before + phrase + id + rest)
    ensures Contains(s, MARKER) && OccursAt(s, PHRASE, |before|)
    ensures var q := |before| + |PHRASE| + 1; q + |id| <= |s| && s[q - 1] == ' ' && s[q..q + |id|] == id
                                              && (q + |id| < |s| ==> !IsHexDigit(s[q + |id|]))
  {
    LoweredParts(before, phrase, id, rest, s);
    MarkerLeadsUp(before, s);
    PhraseFollows(phrase, s, |before|, |before| + |phrase|);
    var end := |before| + |phrase| + |id|;
    if end < |s| { HexDigits(s[end]); assert s[end] == s[end..][0]; }
  }

  lemma MarkerLeadsUp(before: string, s: string)
    requires LeadsUp(before) && |before| <= |s| && s[..|before|] == Lower(before)
    ensures Contains(s, MARKER)
  {
    var m :| OccursAt(Lower(before), "utxo_spent", m);
    assert s[m..m + 10] == s[..|before|][m..m + 10];
    assert OccursAt(s, MARKER, m);
  }

  lemma PhraseFollows(phrase: string, s: string, p: nat, q: nat)
    requires Lower(phrase) == "utxo already spent by tx " && q == p + |phrase| <= |s| && s[p..q] == Lower(phrase)
    ensures OccursAt(s, PHRASE, p) && q == p + |PHRASE| + 1 && s[q - 1] == ' '
  {
    var lowered := s[p..q];
    assert lowered == PHRASE + " " && |lowered| == |PHRASE| + 1;
    assert s[p..p + |PHRASE|] == lowered[..|PHRASE|];
    assert s[q - 1] == lowered[|PHRASE|];
  }

  /** The k-th character of the message, part by part. */
  lemma PartAt(before: string, phrase: string, id: string, rest: string, k: nat)
    requires IsHex(id) && k < |before| + |phrase| + |id| + |rest|
    ensures var (p, q) := (|before|, |before| + |phrase|);
            Lower(before + phrase + id + rest)[k] ==
              if k < p then Lower(before)[k] else if k < q then Lower(phrase)[k - p]
              else if k < q + |id| then id[k - q] else Lower(rest)[k - q - |id|]
  {
    LowerHex(id);
    assert |id| > 0 && (|before| + |phrase| <= k < |before| + |phrase| + |id| ==> Lower(id)[k - |before| - |phrase|] == id[k - |before| - |phrase|]);
  }

  lemma PhraseStarts(s: string, k: int)
    requires OccursAt(s, PHRASE, k)
    ensures k + 4 < |s| && s[k] == 'u' && s[k + 4] == ' '
  {
    assert s[k] == s[k..k + |PHRASE|][0] && s[k + 4] == s[k..k + |PHRASE|][4];
  }

  /** The letter the phrase begins with is in no name and in nothing after it. */
  lemma WhereItStarts(before: string, phrase: string, id: string, rest: string, k: nat)
    requires IsHex(id) && Ends(rest) && k < |before| + |phrase| + |id| + |rest|
    requires Lower(before + phrase + id + rest)[k] == 'u'
    ensures k < |before| + |phrase|
    ensures (if k < |before| then Lower(before)[k] else Lower(phrase)[k - |before|]) == 'u'
  {
    LowerHex(id);
    PartAt(before, phrase, id, rest, k);
  }

  lemma PhraseStartsOnce(phrase: string, j: nat)
    requires Lower(phrase) == "utxo already spent by tx " && j < |phrase| && Lower(phrase)[j] == 'u'
    ensures j == 0
  {}

  /** The phrase begins with a letter that is not where it could begin it anywhere else. */
  lemma OnlyPhrase(before: string, phrase: string, id: string, rest: string, s: string, k: int)
    requires LeadsUp(before) && Lower(phrase) == "utxo already spent by tx " && IsHex(id) && Ends(rest)
    requires s == Lower(before + phrase + id + rest) && OccursAt(s, PHRASE, k)
    ensures k == |before|
  {
    PhraseStarts(s, k);
    WhereItStarts(before, phrase, id, rest, k);
    PartAt(before, phrase, id, rest, k + 4);
    if k >= |before| { PhraseStartsOnce(phrase, k - |before|); }
  }

  /** Arcade's own wording is one that leads up to the phrase. */
  lemma ArcadeLeadsUp()
    ensures LeadsUp("UTXO_SPENT: ") && Ends("[0]")
  {
    assert Lower("UTXO_SPENT: ")[0..10] == "utxo_spent";
    assert OccursAt(Lower("UTXO_SPENT: "), "utxo_spent", 0);
  }

  lemma PhraseLowered()
    ensures Lower("utxo already spent by tx ") == "utxo already spent by tx "
  {}
}
