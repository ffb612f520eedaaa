/** The normaliser of one replay item, on the fields of its JSON object. */
module ReplayItemFields {
  import opened Wrappers
  import opened Texts

  /** A JSON value.  A number has the integer it truncates to; an object has its fields. */
  datatype Json =
    | Absent
    | Null
    | Text(text: string)
    | Number(raw: string, whole: int)
    | Object(raw: string, fields: Fields)
    | Other(raw: string)

  /** The fields the normaliser knows: type, thoughtSignature, thought_signature, and so on. */
  datatype Key =
    | Type | ThoughtSignature | SnakeSignature | ContentIndex | PartIndex | TargetKind | TargetHash | TargetOccurrence
    | ContextHash | CallId | Id | Name | Args | FunctionCall

  type Fields = map<Key, Json>

  const SKIP_SIGNATURE := "skip_thought_signature_validator"
  const MIN_SIGNATURE_LENGTH := 16

  function Get(fields: Fields, key: Key): Json {
    if key in fields then fields[key] else Absent
  }

  function AsText(j: Json): string {
    match j
    case Absent => ""
    case Null => ""
    case Text(text) => text
    case _ => j.raw
  }

  function Trimmed(fields: Fields, key: Key): string {
    Trim(AsText(Get(fields, key)))
  }

  function Inner(fields: Fields): Fields {
    match Get(fields, FunctionCall)
    case Object(_, inner) => inner
    case _ => map[]
  }

  function Whole(n: int): Json {
    Number(Decimal(n), n)
  }

  function Decimal(n: int): string
    decreases if n < 0 then 1 - n else n
  {
    if n < 0 then "-" + Decimal(-n)
    else if n < 10 then [(n + 48) as char]
    else Decimal(n / 10) + [(n % 10 + 48) as char]
  }

  /** Decimal digits, the sign first. */
  lemma {:induction false} DecimalDigits(n: nat, d: nat)
    requires d < 10
    ensures Decimal(d) == ["0123456789"[d]]
    ensures n > 0 ==> Decimal(10 * n + d) == Decimal(n) + ["0123456789"[d]] && Decimal(-(n as int)) == "-" + Decimal(n)
  {
  }

  // ---------------------------------------------------------------- what becomes of one field

  function IndexField(j: Json): Json {
    if j.Number? then Whole(j.whole) else Absent
  }

  function OccurrenceField(j: Json): Json {
    if j.Number? && j.whole >= 0 then Whole(j.whole) else Absent
  }

  function NonBlank(j: Json): Json {
    if Trim(AsText(j)) == "" then Absent else Text(Trim(AsText(j)))
  }

  function KindField(j: Json): Json {
    if NonBlank(j) == Text("text") || NonBlank(j) == Text("thought") then NonBlank(j) else Absent
  }

  function OptionalSignature(j: Json): Json {
    if NonBlank(j) == Text(SKIP_SIGNATURE) then Absent else NonBlank(j)
  }

  lemma {:induction false} NumbersAreStable(j: Json)
    ensures IndexField(IndexField(j)) == IndexField(j)
    ensures OccurrenceField(OccurrenceField(j)) == OccurrenceField(j)
  {
  }

  lemma {:induction false} TextsAreStable(j: Json)
    ensures NonBlank(NonBlank(j)) == NonBlank(j)
    ensures KindField(KindField(j)) == KindField(j)
    ensures OptionalSignature(OptionalSignature(j)) == OptionalSignature(j)
  {
    TrimTwice(AsText(j));
  }

  // ---------------------------------------------------------------- the two kinds of item

  datatype Kept =
    | Signature(sig: string, content: Json, part: Json, kind: Json, hash: Json, occurrence: Json, context: Json)
    | Call(id: string, name: string, args: Json, signature: Json,
           content: Json, part: Json, occurrence: Json, context: Json)

  function FirstOf(a: string, b: string): string {
    if a == "" then b else a
  }

  function ReadSignature(item: Fields): Option<Kept> {
    var sig := FirstOf(Trimmed(item, ThoughtSignature), Trimmed(item, SnakeSignature));
    if sig == "" || sig == SKIP_SIGNATURE || |sig| < MIN_SIGNATURE_LENGTH then None
    else Some(Signature(sig, IndexField(Get(item, ContentIndex)), IndexField(Get(item, PartIndex)),
                        KindField(Get(item, TargetKind)), NonBlank(Get(item, TargetHash)),
                        OccurrenceField(Get(item, TargetOccurrence)), NonBlank(Get(item, ContextHash))))
  }

  /** The nested call is looked at only when the name or the arguments are missing outside. */
  function ReadCall(item: Fields): Option<Kept> {
    var outerId := FirstOf(Trimmed(item, CallId), Trimmed(item, Id));
    var outerName, outerArgs := Trimmed(item, Name), Get(item, Args);
    var nested := outerName == "" || outerArgs == Absent;
    var id := if nested then FirstOf(outerId, Trimmed(Inner(item), Id)) else outerId;
    var name := if nested then FirstOf(outerName, Trimmed(Inner(item), Name)) else outerName;
    var args := if outerArgs == Absent then Get(Inner(item), Args) else outerArgs;
    if name == "" || args == Absent then None
    else Some(Call(id, name, args, OptionalSignature(Get(item, ThoughtSignature)),
                   IndexField(Get(item, ContentIndex)), IndexField(Get(item, PartIndex)),
                   OccurrenceField(Get(item, TargetOccurrence)), NonBlank(Get(item, ContextHash))))
  }

  function ReadItem(item: Fields): Option<Kept> {
    var kind := Trimmed(item, Type);
    if kind == "thought_signature" then ReadSignature(item)
    else if kind == "function_call_part" then ReadCall(item)
    else None
  }

  function Put(out: Fields, key: Key, j: Json): Fields {
    if j == Absent then out else out[key := j]
  }

  function TextOrAbsent(s: string): Json {
    if s == "" then Absent else Text(s)
  }

  function Positions(out: Fields, k: Kept): Fields {
    Put(Put(Put(Put(out, ContentIndex, k.content), PartIndex, k.part), TargetOccurrence, k.occurrence),
        ContextHash, k.context)
  }

  function Write(k: Kept): Fields {
    match k
    case Signature(sig, _, _, kind, hash, _, _) =>
      Positions(Put(Put(map[Type := Text("thought_signature"), ThoughtSignature := Text(sig)],
                        TargetKind, kind), TargetHash, hash), k)
    case Call(_, _, _, _, _, _, _, _) => Positions(CallHead(k), k)
  }

  function Normalized(item: Fields): Option<Fields> {
    match ReadItem(item)
    case None => None
    case Some(k) => Some(Write(k))
  }

  // ---------------------------------------------------------------- normalising twice

  lemma {:induction false} PositionsRead(out: Fields, k: Kept)
    requires Get(out, ContentIndex) == Absent && Get(out, PartIndex) == Absent
    requires Get(out, TargetOccurrence) == Absent && Get(out, ContextHash) == Absent
    ensures var r := Positions(out, k);
      Get(r, ContentIndex) == k.content && Get(r, PartIndex) == k.part
      && Get(r, TargetOccurrence) == k.occurrence && Get(r, ContextHash) == k.context
    ensures forall q :: q !in {ContentIndex, PartIndex, TargetOccurrence, ContextHash} ==>
      Get(Positions(out, k), q) == Get(out, q)
  {
  }

  lemma {:induction false} SignatureRead(k: Kept)
    requires k.Signature?
    ensures var w := Write(k);
      Get(w, Type) == Text("thought_signature") && Get(w, ThoughtSignature) == Text(k.sig)
      && Get(w, ContentIndex) == k.content && Get(w, PartIndex) == k.part && Get(w, TargetKind) == k.kind
      && Get(w, TargetHash) == k.hash && Get(w, TargetOccurrence) == k.occurrence && Get(w, ContextHash) == k.context
  {
    PositionsRead(Put(Put(map[Type := Text("thought_signature"), ThoughtSignature := Text(k.sig)],
                          TargetKind, k.kind), TargetHash, k.hash), k);
  }

  function CallHead(k: Kept): Fields
    requires k.Call?
  {
    Put(Put(map[Type := Text("function_call_part"), Name := Text(k.name), Args := k.args], CallId, TextOrAbsent(k.id)),
        ThoughtSignature, k.signature)
  }

  lemma {:induction false} CallHeadRead(k: Kept)
    requires k.Call? && k.args != Absent
    ensures var w := CallHead(k);
      Get(w, Type) == Text("function_call_part") && Get(w, Name) == Text(k.name) && Get(w, Args) == k.args
      && Get(w, CallId) == TextOrAbsent(k.id) && Get(w, Id) == Absent && Get(w, ThoughtSignature) == k.signature
      && Get(w, ContentIndex) == Absent && Get(w, PartIndex) == Absent
      && Get(w, TargetOccurrence) == Absent && Get(w, ContextHash) == Absent
  {
  }

  lemma {:induction false} CallRead(k: Kept)
    requires k.Call? && k.args != Absent
    ensures var w := Write(k);
      Get(w, Type) == Text("function_call_part") && Get(w, Name) == Text(k.name) && Get(w, Args) == k.args
      && Get(w, CallId) == TextOrAbsent(k.id) && Get(w, Id) == Absent && Get(w, ThoughtSignature) == k.signature
      && Get(w, ContentIndex) == k.content && Get(w, PartIndex) == k.part
      && Get(w, TargetOccurrence) == k.occurrence && Get(w, ContextHash) == k.context
  {
    CallHeadRead(k);
    PositionsRead(CallHead(k), k);
  }

  lemma {:induction false} TextsAreTrimmed()
    ensures Trim("thought_signature") == "thought_signature" && Trim("function_call_part") == "function_call_part"
  {
  }

  /** The fields both kinds share no longer change. */
  predicate StablePositions(k: Kept) {
    IndexField(k.content) == k.content && IndexField(k.part) == k.part
    && OccurrenceField(k.occurrence) == k.occurrence && NonBlank(k.context) == k.context
  }

  predicate StableSignature(k: Kept) {
    k.Signature? && StablePositions(k) && KindField(k.kind) == k.kind && NonBlank(k.hash) == k.hash
    && Trim(k.sig) == k.sig && k.sig != SKIP_SIGNATURE && |k.sig| >= MIN_SIGNATURE_LENGTH
  }

  predicate StableCall(k: Kept) {
    k.Call? && StablePositions(k) && OptionalSignature(k.signature) == k.signature
    && Trim(k.id) == k.id && Trim(k.name) == k.name && k.name != "" && k.args != Absent
  }

  lemma {:induction false} ReadSignatureIsStable(item: Fields)
    requires ReadSignature(item).Some?
    ensures StableSignature(ReadSignature(item).value)
  {
    TrimTwice(AsText(Get(item, ThoughtSignature)));
    TrimTwice(AsText(Get(item, SnakeSignature)));
    NumbersAreStable(Get(item, ContentIndex));
    NumbersAreStable(Get(item, PartIndex));
    TextsAreStable(Get(item, TargetKind));
    TextsAreStable(Get(item, TargetHash));
    NumbersAreStable(Get(item, TargetOccurrence));
    TextsAreStable(Get(item, ContextHash));
  }

  lemma {:induction false} SignatureReadsBack(k: Kept)
    requires StableSignature(k)
    ensures ReadItem(Write(k)) == Some(k)
  {
    TextsAreTrimmed();
    SignatureRead(k);
  }

  lemma {:induction false} CallTextsAreTrimmed(item: Fields)
    requires ReadCall(item).Some?
    ensures var k := ReadCall(item).value;
      k.Call? && Trim(k.id) == k.id && Trim(k.name) == k.name && k.name != "" && k.args != Absent
  {
    TrimTwice(AsText(Get(item, CallId)));
    TrimTwice(AsText(Get(item, Id)));
    TrimTwice(AsText(Get(item, Name)));
    TrimTwice(AsText(Get(Inner(item), Id)));
    TrimTwice(AsText(Get(Inner(item), Name)));
  }

  lemma {:induction false} ReadCallIsStable(item: Fields)
    requires ReadCall(item).Some?
    ensures StableCall(ReadCall(item).value)
  {
    CallTextsAreTrimmed(item);
    TextsAreStable(Get(item, ThoughtSignature));
    NumbersAreStable(Get(item, ContentIndex));
    NumbersAreStable(Get(item, PartIndex));
    NumbersAreStable(Get(item, TargetOccurrence));
    TextsAreStable(Get(item, ContextHash));
  }

  lemma {:induction false} CallReadsBack(k: Kept)
    requires StableCall(k)
    ensures ReadItem(Write(k)) == Some(k)
  {
    TextsAreTrimmed();
    CallRead(k);
    var w := Write(k);
    assert Trimmed(w, Type) == "function_call_part";
    assert FirstOf(Trimmed(w, CallId), Trimmed(w, Id)) == k.id;
    assert Trimmed(w, Name) == k.name;
  }

  /** Normalising an item that was normalised before changes nothing. */
  lemma {:induction false} ItemIsStable(item: Fields)
    requires Normalized(item).Some?
    ensures Normalized(Normalized(item).value) == Normalized(item)
  {
    if Trimmed(item, Type) == "thought_signature" {
      ReadSignatureIsStable(item);
      SignatureReadsBack(ReadSignature(item).value);
    } else {
      ReadCallIsStable(item);
      CallReadsBack(ReadCall(item).value);
    }
  }

  // ---------------------------------------------------------------- what survives, field by field

  /** The field of the normalised item is this text, or there is none if the text is blank. */
  predicate HoldsText(w: Fields, key: Key, text: string) {
    if text == "" then key !in w || w[key] == Absent else key in w && w[key] == Text(text)
  }

  /** The field of the normalised item is the integer a number of the item truncates to, if it is one that
      is wanted; of anything else there is no trace. */
  predicate HoldsWhole(w: Fields, item: Fields, key: Key, negativeToo: bool) {
    match Get(item, key)
    case Number(_, whole) =>
      if whole >= 0 || negativeToo then key in w && w[key] == Number(Decimal(whole), whole)
      else key !in w || w[key] == Absent
    case _ => key !in w || w[key] == Absent
  }

  /** The signature, wherever it stands. */
  function SignatureText(item: Fields): string {
    if Trimmed(item, ThoughtSignature) != "" then Trimmed(item, ThoughtSignature) else Trimmed(item, SnakeSignature)
  }

  /** The call id, name and arguments, wherever they stand: the nested call counts only when the name or
      the arguments are missing outside. */
  function CallIdText(item: Fields): string {
    if Trimmed(item, CallId) != "" then Trimmed(item, CallId)
    else if Trimmed(item, Id) != "" then Trimmed(item, Id)
    else if Trimmed(item, Name) == "" || Get(item, Args) == Absent then Trimmed(Inner(item), Id)
    else ""
  }

  function NameText(item: Fields): string {
    if Trimmed(item, Name) != "" then Trimmed(item, Name) else Trimmed(Inner(item), Name)
  }

  function ArgsValue(item: Fields): Json {
    if Get(item, Args) != Absent then Get(item, Args) else Get(Inner(item), Args)
  }

  /** Which items are kept: signatures of at least 16 characters that are not the placeholder, and calls
      with a name and arguments. */
  lemma {:induction false} KeptItems(item: Fields)
    ensures Normalized(item).Some? <==>
      || (Trimmed(item, Type) == "thought_signature" && |SignatureText(item)| >= 16
          && SignatureText(item) != "skip_thought_signature_validator")
      || (Trimmed(item, Type) == "function_call_part" && NameText(item) != "" && ArgsValue(item) != Absent)
  {
  }

  lemma {:induction false} PositionsKept(item: Fields)
    requires Normalized(item).Some?
    ensures var w := Normalized(item).value;
      && HoldsWhole(w, item, ContentIndex, true) && HoldsWhole(w, item, PartIndex, true)
      && HoldsWhole(w, item, TargetOccurrence, false) && HoldsText(w, ContextHash, Trimmed(item, ContextHash))
  {
    var k := ReadItem(item).value;
    if k.Signature? {
      SignatureRead(k);
    } else {
      CallRead(k);
    }
  }

  /** What a normalised signature holds. */
  lemma {:induction false} SignatureFields(item: Fields)
    requires Normalized(item).Some? && Trimmed(item, Type) == "thought_signature"
    ensures var w, kind := Normalized(item).value, Trimmed(item, TargetKind);
      && HoldsText(w, Type, "thought_signature") && HoldsText(w, ThoughtSignature, SignatureText(item))
      && HoldsText(w, TargetKind, if kind == "text" || kind == "thought" then kind else "")
      && HoldsText(w, TargetHash, Trimmed(item, TargetHash))
      && w.Keys <= {Type, ThoughtSignature, ContentIndex, PartIndex, TargetKind, TargetHash, TargetOccurrence,
                    ContextHash}
  {
    var k := ReadSignature(item).value;
    SignatureRead(k);
    assert |"thought_signature"| == 17;
  }

  /** What a normalised call holds. */
  lemma {:induction false} CallFields(item: Fields)
    requires Normalized(item).Some? && Trimmed(item, Type) == "function_call_part"
    ensures var w, sig := Normalized(item).value, Trimmed(item, ThoughtSignature);
      && HoldsText(w, Type, "function_call_part") && HoldsText(w, CallId, CallIdText(item))
      && HoldsText(w, Name, NameText(item)) && Args in w && w[Args] == ArgsValue(item)
      && HoldsText(w, ThoughtSignature, if sig == "skip_thought_signature_validator" then "" else sig)
      && w.Keys <= {Type, CallId, Name, Args, ThoughtSignature, ContentIndex, PartIndex, TargetOccurrence, ContextHash}
  {
    var k := ReadCall(item).value;
    CallRead(k);
    assert |"function_call_part"| == 18;
  }
}
