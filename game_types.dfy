/** The plain types of the Undercover game: the two enumerations, the
    message record and its one-line display form, and the Option/Result
    wrappers the rest of the model uses for absent values and errors. */
module GameTypes {

  datatype Option<T> = None | Some(value: T)

  datatype Result<T, E> = Ok(value: T) | Err(error: E)

  /** The four phases of a round, with the enumeration values 0..3. */
  datatype GamePhase = Description | Discussion | Voting | Guessing

  /** The three roles: civilians, the undercover minority and Mr. White. */
  datatype GameRole = Civilian | Undercover | MrWhite

  /** The integer value the enumeration attaches to a phase. */
  function PhaseValue(p: GamePhase): (v: nat)
    ensures v < 4
    ensures v == 0 <==> p == Description
    ensures v == 1 <==> p == Discussion
    ensures v == 2 <==> p == Voting
    ensures v == 3 <==> p == Guessing
  {
    match p
    case Description => 0
    case Discussion => 1
    case Voting => 2
    case Guessing => 3
  }

  /** Lookup of a phase by value; any other value is rejected. */
  function PhaseFromValue(v: int): (r: Option<GamePhase>)
    ensures r.Some? <==> 0 <= v < 4
    ensures r.Some? ==> PhaseValue(r.value) == v
  {
    if v == 0 then Some(Description)
    else if v == 1 then Some(Discussion)
    else if v == 2 then Some(Voting)
    else if v == 3 then Some(Guessing)
    else None
  }

  lemma PhaseValueRoundTrip(p: GamePhase)
    ensures PhaseFromValue(PhaseValue(p)) == Some(p)
  {
  }

  /** The integer value the enumeration attaches to a role. */
  function RoleValue(g: GameRole): (v: nat)
    ensures v < 3
    ensures v == 0 <==> g == Civilian
    ensures v == 1 <==> g == Undercover
    ensures v == 2 <==> g == MrWhite
  {
    match g
    case Civilian => 0
    case Undercover => 1
    case MrWhite => 2
  }

  /** Lookup of a role by value; any other value is rejected. */
  function RoleFromValue(v: int): (r: Option<GameRole>)
    ensures r.Some? <==> 0 <= v < 3
    ensures r.Some? ==> RoleValue(r.value) == v
  {
    if v == 0 then Some(Civilian)
    else if v == 1 then Some(Undercover)
    else if v == 2 then Some(MrWhite)
    else None
  }

  lemma RoleValueRoundTrip(g: GameRole)
    ensures RoleFromValue(RoleValue(g)) == Some(g)
  {
  }

  /** One message: who sent it, what it says, and the list of
      participants it is addressed to (its visibility). */
  datatype Message = Message(sender: string, content: string, receiver: seq<string>)

  /** The display form of a message: the sender, a colon and a space,
      then the content. The receivers are not shown. */
  function Display(m: Message): (s: string)
    ensures |s| == |m.sender| + 2 + |m.content|
    ensures s[..|m.sender|] == m.sender
    ensures s[|m.sender|..|m.sender| + 2] == ": "
    ensures s[|m.sender| + 2..] == m.content
  {
    m.sender + ": " + m.content
  }

  /** Position of the first ':' in s, or |s| when there is none. */
  function ColonIndex(s: string): (i: nat)
    ensures i <= |s|
    ensures i < |s| ==> s[i] == ':'
    ensures ':' !in s[..i]
  {
    if s == [] then 0
    else if s[0] == ':' then 0
    else
      var j := ColonIndex(s[1..]);
      assert s[..1 + j] == [s[0]] + s[1..][..j];
      1 + j
  }

  /** Reads a display line back into (sender, content), splitting at the
      first ':', which must be followed by a space. */
  function ParseDisplay(s: string): (r: Option<(string, string)>)
    ensures r.Some? ==> ':' !in r.value.0
  {
    var i := ColonIndex(s);
    if i + 1 < |s| && s[i + 1] == ' ' then Some((s[..i], s[i + 2..])) else None
  }

  lemma {:induction false} ColonIndexAfter(a: string, b: string)
    requires ':' !in a
    ensures ColonIndex(a + b) == |a| + ColonIndex(b)
  {
    if a != [] {
      assert (a + b)[1..] == a[1..] + b;
      assert a[0] in a;
      ColonIndexAfter(a[1..], b);
    } else {
      assert a + b == b;
    }
  }

  /** A sender name without ':' can be read back from the display form,
      and so can the content. */
  lemma DisplayRoundTrip(m: Message)
    requires ':' !in m.sender
    ensures ParseDisplay(Display(m)) == Some((m.sender, m.content))
  {
    var s := Display(m);
    assert s == m.sender + (": " + m.content);
    ColonIndexAfter(m.sender, ": " + m.content);
  }

  /** Every line that parses is the display form of the message it names,
      whatever that message's receivers. */
  lemma ParseDisplaySound(s: string, receiver: seq<string>)
    requires ParseDisplay(s).Some?
    ensures Display(Message(ParseDisplay(s).value.0, ParseDisplay(s).value.1, receiver)) == s
  {
  }
}
