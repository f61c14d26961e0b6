/** Payment codes and the memos that carry them (bridge/src/codes.ts), as the gateway reads them. */
module PaymentCodes {
  import opened Common
  import opened PriceSchedule
  import opened GrantRules
  import opened PaymentFold
  import Base58

  /** A base58 string of exactly 20 bytes. */
  predicate ValidCode(code: string) {
    20 <= |code| <= 40 && Base58.Decode(code).Some? && |Base58.Decode(code).value| == 20
  }

  /** None is the throw on an invalid code. */
  function MemoForCode(code: string): Option<string> {
    if ValidCode(code) then Some(MEMO_PREFIX + code) else None
  }

  lemma ValidIsNotEmpty(code: string)
    requires ValidCode(code)
    ensures code != ""
  {
  }

  /** The code of every key is valid. */
  lemma EveryCodeIsValid(bytes: seq<Base58.Byte>)
    requires |bytes| == 20
    ensures ValidCode(Base58.Encode(bytes))
  {
    hide Base58.Encode, Base58.Decode;
    Base58.CodeLength(bytes);
    Base58.RoundTrip(bytes);
  }

  /** Base58 has no white space, so a memo's trimming leaves the code alone. */
  lemma CodesKeepTheirEnds(code: string)
    requires ValidCode(code)
    ensures TrimSpace(code) == code
  {
    hide GoSpace;
    assert Base58.DigitOf(code[0]).Some? && Base58.DigitOf(code[|code| - 1]).Some?;
    NoSpace(code[0]);
    NoSpace(code[|code| - 1]);
  }

  lemma NoSpace(c: char)
    requires Base58.DigitOf(c).Some?
    ensures !GoSpace(c)
  {
  }

  /** The gateway reads back the code the bridge wrote. */
  lemma MemoRoundTrip(code: string)
    requires ValidCode(code)
    ensures MemoParse([MemoForCode(code).value]) == Some(code)
  {
    CodesKeepTheirEnds(code);
    ValidIsNotEmpty(code);
    hide ValidCode, TrimSpace;
    var m := MEMO_PREFIX + code;
    var ms: seq<string> := [m];
    assert m[|MEMO_PREFIX|..] == code && ms[..0] == [];
    assert Codes([m]) == [] + [TrimSpace(code)] == [code];
  }

  /** A transaction with this memo that pays for `days` days there is worth them to the code. */
  lemma PaidIsWorth(tx: Tx, s: Schedule, code: string, days: nat)
    requires s.Valid() && ValidCode(code) && tx.memos == [MemoForCode(code).value] && days >= 1
    requires Effective(s, tx.height) > 0
    requires PaysADay(tx.zats, Effective(s, tx.height)) && DaysGranted(tx.zats, Effective(s, tx.height)) >= days
    ensures Worth(tx, s) == Some((code, DaysGranted(tx.zats, Effective(s, tx.height))))
  {
    hide ValidCode, Effective, DaysGranted, PaysADay, MemoParse;
    MemoRoundTrip(code);
  }

  /** The sizing law end to end: what the bridge pays for valid codes, the gateway credits to them with at
      least the bought days, at whatever height of its life the transaction is mined. */
  lemma SettlementIsWorth(s: Schedule, tip: int, days: nat, code: string, tx: Tx)
    requires s.Valid() && days >= 1 && ValidCode(code) && tip <= tx.height <= tip + EXPIRY_DELTA
    requires HighestEffective(s, tip, tip + EXPIRY_DELTA) > 0
    requires tx.zats == ZatsForDays(HighestEffective(s, tip, tip + EXPIRY_DELTA), days) && tx.memos == [MemoForCode(code).value]
    ensures Worth(tx, s).Some? && Worth(tx, s).value.0 == code && Worth(tx, s).value.1 >= days
    ensures Effective(s, tx.height) == HighestEffective(s, tip, tip + EXPIRY_DELTA) >= 33 ==> Worth(tx, s).value.1 == days
  {
    hide ValidCode, MemoForCode, Effective, HighestEffective, DaysGranted, PaysADay, ZatsForDays, Worth;
    SettlementCoversDays(s, tip, days, tx.height);
    PaidIsWorth(tx, s, code, days);
  }
}
