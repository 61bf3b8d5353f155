/**
 * Card encoding and record shapes of the Spider store: the rank order,
 * the suits, the difficulties and the records kept in the state
 * (vacancies, hints, move records and their context).
 */
module Types {

  datatype Option<+T> = None | Some(value: T)

  /** The rank symbols in rank order, lowest first. A rank is an index into this. */
  const CardValues: seq<char> := ['1', '2', '3', '4', '5', '6', '7', '8', '9', 'A', 'B', 'D', 'E']

  /** A rank is the position of a value in CardValues. */
  type Rank = r: nat | r < 13

  /** The number of cards in a complete run: one of every rank. */
  const RunSize: nat := 13

  /** The position of a value symbol in CardValues, or -1 when it is not a rank. */
  function IndexOf(v: char): (i: int)
    ensures -1 <= i < |CardValues|
    ensures i >= 0 ==> CardValues[i] == v
    ensures i == -1 <==> v !in CardValues
  {
    IndexFrom(CardValues, v, 0)
  }

  function IndexFrom(s: seq<char>, v: char, k: nat): (i: int)
    requires k <= |s|
    ensures -1 <= i < |s|
    ensures i >= 0 ==> k <= i && s[i] == v && v !in s[k..i]
    ensures i == -1 <==> v !in s[k..]
    decreases |s| - k
  {
    if k == |s| then -1
    else if s[k] == v then k
    else IndexFrom(s, v, k + 1)
  }

  /** The symbol printed for a value: the ten is encoded "A", jack "B", queen "D", king "E". */
  function ValueSymbol(v: char): (sym: Option<string>)
    ensures sym.Some? <==> v in CardValues
  {
    match v
    case '1' => Some("A")
    case '2' => Some("2")
    case '3' => Some("3")
    case '4' => Some("4")
    case '5' => Some("5")
    case '6' => Some("6")
    case '7' => Some("7")
    case '8' => Some("8")
    case '9' => Some("9")
    case 'A' => Some("10")
    case 'B' => Some("J")
    case 'D' => Some("Q")
    case 'E' => Some("K")
    case _ => None
  }

  /** The suits; the store compares them by their one-letter codes. */
  datatype Color = Spades | Hearts | Diamonds | Clubs

  function ColorCode(c: Color): char
  {
    match c
    case Spades => 'A'
    case Hearts => 'B'
    case Diamonds => 'C'
    case Clubs => 'D'
  }

  /** The suits in the order new decks are built. */
  const CardColors: seq<Color> := [Spades, Hearts, Diamonds, Clubs]

  datatype Difficulty = Easy | Medium | Hard

  /** Card identity; NoId stands for the empty id "" (and for a missing one). */
  type Id = nat
  const NoId: Id := 0

  datatype Card = Card(id: Id, value: Rank, color: Color, dealt: bool, turned: bool)

  /** A candidate destination: its column, the colour it would land on, the moved value, its run length. */
  datatype Vacancy = Vacancy(index: int, sequence: int, color: Color, value: Rank)

  datatype MoveContext = MoveContext(vacancies: seq<Vacancy>, vacancyIndex: int, lastMoved: Id)

  datatype Hint = Hint(from: int, to: int, uuid: Id, length: Option<int>)

  /** A move record: the fields of a Hint, the fields of a MoveContext, and the two optional flags. */
  datatype Move = Move(
    from: int, to: int, uuid: Id, length: Option<int>,
    vacancies: seq<Vacancy>, vacancyIndex: int, lastMoved: Id,
    turned: Option<Id>, isDeal: bool)

  function HintOf(m: Move): (h: Hint)
    ensures h.from == m.from && h.to == m.to && h.uuid == m.uuid && h.length == m.length
  {
    Hint(m.from, m.to, m.uuid, m.length)
  }

  function ContextOf(m: Move): (c: MoveContext)
    ensures c.vacancies == m.vacancies && c.vacancyIndex == m.vacancyIndex && c.lastMoved == m.lastMoved
  {
    MoveContext(m.vacancies, m.vacancyIndex, m.lastMoved)
  }

  /** The record made of a hint, a context and the two flags, as the Move type intersects them. */
  function JoinMove(h: Hint, c: MoveContext, turned: Option<Id>, isDeal: bool): (m: Move)
    ensures HintOf(m) == h && ContextOf(m) == c && m.turned == turned && m.isDeal == isDeal
  {
    Move(h.from, h.to, h.uuid, h.length, c.vacancies, c.vacancyIndex, c.lastMoved, turned, isDeal)
  }

  /** A record is nothing but its hint, its context and its two flags. */
  lemma MoveSplitJoin(m: Move)
    ensures JoinMove(HintOf(m), ContextOf(m), m.turned, m.isDeal) == m
  {
  }

  const DefaultMoveContext: MoveContext := MoveContext([], 0, NoId)

  /** The record pushed for a deal, before isDeal is set. */
  const DefaultMove: Move := Move(-1, -1, NoId, None, [], -1, NoId, None, false)

  /** CardValues holds 13 strictly ascending, hence distinct, symbols, and "C" is not among them. */
  lemma CardValuesShape()
    ensures |CardValues| == RunSize
    ensures forall i, j :: 0 <= i < j < |CardValues| ==> CardValues[i] < CardValues[j]
    ensures 'C' !in CardValues && IndexOf('C') == -1
  {
    forall i, j | 0 <= i < j < |CardValues| ensures CardValues[i] < CardValues[j] {
      AscendingAt(i, j);
    }
  }

  /** The rank of a card is the position of its symbol in CardValues. */
  lemma IndexOfRank(r: Rank)
    ensures IndexOf(CardValues[r]) == r
  {
    var k := IndexOf(CardValues[r]);
    if k < r { AscendingAt(k, r); } else if k > r { AscendingAt(r, k); }
  }

  lemma AscendingAt(i: int, j: int)
    requires 0 <= i < j < |CardValues|
    ensures CardValues[i] < CardValues[j]
  {
    var k := i;
    while k < j
      invariant i <= k <= j
      invariant CardValues[i] <= CardValues[k]
      invariant k > i ==> CardValues[i] < CardValues[k]
    {
      assert CardValues[k] < CardValues[k + 1];
      k := k + 1;
    }
  }

  /**
   * Every rank has its face: the ace shows "A", ranks 1 to 8 their number
   * (rank r is the card r + 1), rank 9 shows "10", and the last three J, Q, K;
   * "C" shows nothing.
   */
  lemma ValueSymbols()
    ensures ValueSymbol(CardValues[0]) == Some("A")
    ensures forall r :: 1 <= r <= 8 ==> ValueSymbol(CardValues[r]) == Some([('0' as int + r + 1) as char])
    ensures ValueSymbol(CardValues[9]) == Some("10")
    ensures ValueSymbol(CardValues[10]) == Some("J") && ValueSymbol(CardValues[11]) == Some("Q")
    ensures ValueSymbol(CardValues[12]) == Some("K") && ValueSymbol('C') == None
  {
    forall r | 1 <= r <= 8 ensures ValueSymbol(CardValues[r]) == Some([('0' as int + r + 1) as char]) {
      assert CardValues[r] == ('0' as int + r + 1) as char;
    }
  }

  lemma ColorsShape()
    ensures |CardColors| == 4
    ensures forall i, j :: 0 <= i < j < 4 ==> CardColors[i] != CardColors[j]
    ensures forall i :: 0 <= i < 4 ==> ColorCode(CardColors[i]) == "ABCD"[i]
    ensures forall c: Color :: c in CardColors
  {
    forall c: Color ensures c in CardColors {
      match c
      case Spades => assert CardColors[0] == c;
      case Hearts => assert CardColors[1] == c;
      case Diamonds => assert CardColors[2] == c;
      case Clubs => assert CardColors[3] == c;
    }
  }
}
