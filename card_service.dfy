/**
 * app/services/card_service.py: issuing a card on one of the caller's
 * accounts, listing the caller's cards, and the masked view of a card. The
 * card number is stored only encrypted.
 */
module CardService {
  import opened Wrappers
  import opened Errors
  import opened Records
  import opened Db
  import opened Crypto
  import Generators
  import Seqs
  import TransactionService

  /** How many trailing digits the masked view shows. */
  const ShownDigits := 4

  /** CardCreate: the account and the card type requested. */
  datatype CardCreate = CardCreate(accountId: int, kind: CardKind)

  /** CardResponse: a card with only the last four digits of its number. */
  datatype CardResponse = CardResponse(
    id: int,
    accountId: int,
    numberLast4: string,
    kind: CardKind,
    active: bool,
    createdAt: int)

  /**
   * create_card: on an existing account the caller holds, a new active card
   * of the requested type whose stored number is the encryption of the
   * Luhn-valid number built from the fifteen drawn digits.
   */
  method CreateCard(db: Database, userId: int, request: CardCreate, cipher: Cipher, digits: seq<int>, now: int)
    returns (r: Result<Card>)
    requires db.Valid() && Generators.IsDraw(digits, Generators.CardDrawLength)
    modifies db
    ensures db.Valid()
    ensures db.accounts == old(db.accounts) && db.transactions == old(db.transactions) && db.holders == old(db.holders)
    ensures var e := TransactionService.CheckAccess(old(db.accounts), userId, request.accountId, None, AccessDeniedMessage);
      e.Some? ==> r == Err(e.value) && db.cards == old(db.cards)
    ensures r.Ok? <==> HasAccount(old(db.accounts), request.accountId)
                       && old(db.accounts)[request.accountId - 1].holderId == userId
    ensures r.Ok? ==>
      r.value == Card(|old(db.cards)| + 1, request.accountId, cipher.encrypt(Generators.CardNumber(digits)),
                      request.kind, true, now)
      && db.cards == old(db.cards) + [r.value]
  {
    var denied := TransactionService.CheckAccess(db.accounts, userId, request.accountId, None, AccessDeniedMessage);
    if denied.Some? {
      return Err(denied.value);
    }
    var number := Generators.GenerateCardNumber(digits);
    var encrypted := cipher.encrypt(number);
    var card := Card(|db.cards| + 1, request.accountId, encrypted, request.kind, true, now);
    db.cards := db.cards + [card];
    return Ok(card);
  }

  /** The rows get_user_cards selects, in table order. */
  function SelectedCards(accounts: seq<Account>, cards: seq<Card>, userId: int, accountId: Option<int>): seq<Card> {
    var owned := OwnedAccountIds(accounts, userId);
    Seqs.Filter(cards, (c: Card) => c.accountId in owned
                                    && (TransactionService.Selects(accountId) ==> c.accountId == accountId.value))
  }

  /** get_user_cards: the cards on the caller's accounts, or on one of them. */
  function GetUserCards(accounts: seq<Account>, cards: seq<Card>, userId: int, accountId: Option<int>)
    : (r: Result<seq<Card>>)
    ensures r.Err? <==>
      TransactionService.Selects(accountId) && accountId.value !in OwnedAccountIds(accounts, userId)
    ensures r.Err? ==> r.error == Raise(Unauthorized, Some(AccessDeniedMessage))
    ensures r.Ok? ==> forall c :: c in r.value <==>
      c in cards && (exists i | 0 <= i < |accounts| :: accounts[i].id == c.accountId && accounts[i].holderId == userId)
      && (TransactionService.Selects(accountId) ==> c.accountId == accountId.value)
    ensures r.Ok? ==> multiset(r.value) <= multiset(cards)
    ensures r.Ok? ==> forall c ::
      multiset(r.value)[c] == (if c.accountId in OwnedAccountIds(accounts, userId)
                                  && (TransactionService.Selects(accountId) ==> c.accountId == accountId.value)
                               then multiset(cards)[c] else 0)
  {
    if TransactionService.Selects(accountId) && accountId.value !in OwnedAccountIds(accounts, userId) then
      Err(Raise(Unauthorized, Some(AccessDeniedMessage)))
    else
      var owned := OwnedAccountIds(accounts, userId);
      Seqs.FilterCounts(cards, (c: Card) => c.accountId in owned
                                            && (TransactionService.Selects(accountId) ==> c.accountId == accountId.value));
      Ok(SelectedCards(accounts, cards, userId, accountId))
  }

  /** `s[-4:]`: the last four characters, or all of a shorter string. */
  function Last4(s: string): (r: string)
    ensures |r| == if |s| < ShownDigits then |s| else ShownDigits
    ensures r == s[|s| - |r|..]
  {
    if |s| < ShownDigits then s else s[|s| - ShownDigits..]
  }

  /** get_card_response: the card's fields, with its number decrypted and cut to the last four. */
  function GetCardResponse(card: Card, cipher: Cipher): (r: CardResponse)
    ensures r.id == card.id && r.accountId == card.accountId && r.kind == card.kind
    ensures r.active == card.active && r.createdAt == card.createdAt
    ensures |r.numberLast4| <= ShownDigits
    ensures r.numberLast4 == Last4(cipher.decrypt(card.numberEncrypted))
  {
    CardResponse(card.id, card.accountId, Last4(cipher.decrypt(card.numberEncrypted)), card.kind, card.active, card.createdAt)
  }

  /**
   * With a cipher that decrypts what it encrypts, the masked view of an
   * issued card shows the last four digits of the number generated for it:
   * three drawn digits and the check digit.
   */
  lemma IssuedCardShowsLastDigits(cipher: Cipher, digits: seq<int>, card: Card)
    requires RoundTrips(cipher) && Generators.IsDraw(digits, Generators.CardDrawLength)
    requires card.numberEncrypted == cipher.encrypt(Generators.CardNumber(digits))
    ensures var last4 := GetCardResponse(card, cipher).numberLast4;
      last4 == Generators.CardNumber(digits)[12..]
      && last4[..3] == Generators.DigitString(digits[12..])
      && Generators.DigitValue(last4[3]) == Generators.CheckDigit(digits)
  {
    var number := Generators.CardNumber(digits);
    Generators.CardNumberIsLuhnValid(digits);
    assert cipher.decrypt(cipher.encrypt(number)) == number;
    var last4 := number[12..];
    assert last4[..3] == number[12..15];
    assert number[..15][12..15] == number[12..15];
  }
}
