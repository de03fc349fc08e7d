/**
 * The helpers of internal/utils/utils.go: password generation, the 32-byte
 * key padding and nonce split of EncryptFile/DecryptFile, `strconv.Atoi`, the
 * input validators of the prompts, and the secret picker.
 *
 * A prompt is modelled by the lines the user submits in turn: promptui keeps
 * asking until the validator accepts a line, and fails when input ends.
 */
module Utils {
  import opened Base
  import opened Primitives
  import opened Vault
  import opened SecretList

  const Letters := Lit("abcdefghijklmnopqrstuvwxyzABCDEFGHIJKLMNOPQRSTUVWXYZ")
  const DigitChars := Lit("0123456789")
  const Symbols := Lit("!@#$%^&*()-_=+")

  /** The characters GeneratePassword draws from: letters, then digits, then symbols. */
  function Alphabet(useSymbols: bool, useNumbers: bool): (r: GoString)
    ensures |r| == 52 + (if useNumbers then 10 else 0) + (if useSymbols then 14 else 0)
    ensures r[..52] == Letters
    ensures useNumbers ==> r[52..62] == DigitChars
    ensures useSymbols ==> r[|r| - 14..] == Symbols
  {
    Letters + (if useNumbers then DigitChars else []) + (if useSymbols then Symbols else [])
  }

  /**
   * `rand.Int(rand.Reader, big.NewInt(n))` at the i-th draw: `pick(i, n)`;
   * `None` is an error of the random source.
   */
  type Picker = (nat, nat) -> Option<nat>

  ghost predicate PickerOk(pick: Picker) {
    forall i: nat, n: nat :: n > 0 && pick(i, n).Some? ==> pick(i, n).value < n
  }

  datatype GenError = NonPositiveLength | DrawFailed

  /** The password GeneratePassword returns for the draws of `pick`. */
  function Password(length: int, useSymbols: bool, useNumbers: bool, pick: Picker): (r: Result<GoString, GenError>)
    requires PickerOk(pick)
    ensures length < 1 <==> r == Err(NonPositiveLength)
    ensures length >= 1 ==>
              (r.Err? <==> exists i :: 0 <= i < length && pick(i, |Alphabet(useSymbols, useNumbers)|).None?)
    ensures r.Ok? ==> |r.value| == length
    ensures r.Ok? ==> forall i :: 0 <= i < |r.value| ==> r.value[i] in Alphabet(useSymbols, useNumbers)
  {
    var chars := Alphabet(useSymbols, useNumbers);
    if length < 1 then Err(NonPositiveLength)
    else if exists i :: 0 <= i < length && pick(i, |chars|).None? then Err(DrawFailed)
    else Ok(seq(length, i requires 0 <= i < length => chars[pick(i, |chars|).value]))
  }

  /** `GeneratePassword(length, useSymbols, useNumbers)`. */
  method GeneratePassword(length: int, useSymbols: bool, useNumbers: bool, pick: Picker)
    returns (r: Result<GoString, GenError>)
    requires PickerOk(pick)
    ensures r == Password(length, useSymbols, useNumbers, pick)
  {
    if length < 1 {
      return Err(NonPositiveLength);
    }
    var chars := Alphabet(useSymbols, useNumbers);
    var result := new byte[length];
    for i := 0 to length
      invariant forall j :: 0 <= j < i ==> pick(j, |chars|).Some? && result[j] == chars[pick(j, |chars|).value]
    {
      var idx := pick(i, |chars|);
      if idx.None? {
        return Err(DrawFailed);
      }
      result[i] := chars[idx.value];
    }
    r := Ok(result[..]);
    assert result[..] == seq(length, i requires 0 <= i < length => chars[pick(i, |chars|).value]);
  }

  /** The password bytes zero-padded or truncated to a 32-byte AES key. */
  function PadKey(password: GoString): (key: Bytes)
    ensures |key| == KeySize
    ensures forall i :: 0 <= i < KeySize ==> key[i] == if i < |password| then password[i] else 0
  {
    if |password| < KeySize then password + Zeros(KeySize - |password|) else password[..KeySize]
  }

  datatype FileCryptError = NonceFailed | OpenFailed

  /**
   * `EncryptFile(data, password)`. The padded key always has 32 bytes, so the
   * `aes.NewCipher` error branch cannot be taken and is not modelled.
   */
  function EncryptFile(data: Bytes, password: GoString, c: Crypto, nonceDraw: Option<Bytes>): (r: Result<Bytes, FileCryptError>)
    requires nonceDraw.Some? ==> |nonceDraw.value| == NonceSize
    ensures password == [] ==> r == Ok(data)
    ensures password != [] ==> (r.Ok? <==> nonceDraw.Some?)
    ensures password != [] && r.Ok? ==>
              |r.value| >= NonceSize && r.value[..NonceSize] == nonceDraw.value
              && r.value[NonceSize..] == c.seal(PadKey(password), nonceDraw.value, data)
  {
    if password == [] then Ok(data)
    else match nonceDraw
      case None => Err(NonceFailed)
      case Some(nonce) =>
        var sealed := c.seal(PadKey(password), nonce, data);
        assert (nonce + sealed)[..NonceSize] == nonce && (nonce + sealed)[NonceSize..] == sealed;
        Ok(nonce + sealed)
  }

  /** `DecryptFile(data, password)`. */
  function DecryptFile(data: Bytes, password: GoString, c: Crypto): (r: Result<Bytes, FileCryptError>)
    ensures |data| < NonceSize ==> r == Ok(data)
    ensures |data| >= NonceSize ==>
              r == match c.open(PadKey(password), data[..NonceSize], data[NonceSize..])
                   case None => Err(OpenFailed)
                   case Some(p) => Ok(p)
  {
    if |data| < NonceSize then Ok(data)
    else match c.open(PadKey(password), data[..NonceSize], data[NonceSize..])
      case None => Err(OpenFailed)
      case Some(plaintext) => Ok(plaintext)
  }

  /** With a non-empty password, DecryptFile undoes EncryptFile. */
  lemma EncryptThenDecrypt(data: Bytes, password: GoString, c: Crypto, nonceDraw: Option<Bytes>)
    requires Sound(c) && password != []
    requires nonceDraw.Some? ==> |nonceDraw.value| == NonceSize
    requires EncryptFile(data, password, c, nonceDraw).Ok?
    ensures DecryptFile(EncryptFile(data, password, c, nonceDraw).value, password, c) == Ok(data)
  {
    var sealed := c.seal(PadKey(password), nonceDraw.value, data);
    assert |sealed| == |data| + TagSize;
  }

  datatype PromptError = Aborted | SelectFailed | GenerateError(cause: GenError) | NoSecrets | SelectionNotFound

  /**
   * One submission to a promptui prompt. The prompt opens showing its
   * `Default`; Enter at once submits it (`AcceptDefault`). The first key
   * pressed erases the default, after which Enter submits what was typed
   * (`Submit`), which is empty when the user erased everything.
   */
  datatype Answer = AcceptDefault | Submit(text: GoString)

  /** The text a submission hands to the validator and returns. */
  function Entered(defaultValue: GoString, a: Answer): (r: GoString)
    ensures a.Submit? ==> r == a.text
    ensures a.AcceptDefault? ==> r == defaultValue
  {
    match a
    case AcceptDefault => defaultValue
    case Submit(text) => text
  }

  /** `PromptForInput(label, defaultValue, validate)`: the first submitted text the validator accepts. */
  function PromptForInput(defaultValue: GoString, lines: seq<Answer>, valid: GoString -> bool): (r: Result<GoString, PromptError>)
    ensures r.Err? <==> forall i :: 0 <= i < |lines| ==> !valid(Entered(defaultValue, lines[i]))
    ensures r.Err? ==> r.error == Aborted
    ensures r.Ok? ==> valid(r.value)
    ensures r.Ok? ==> exists k :: 0 <= k < |lines| && Entered(defaultValue, lines[k]) == r.value
                                  && forall i :: 0 <= i < k ==> !valid(Entered(defaultValue, lines[i]))
  {
    if |lines| == 0 then Err(Aborted)
    else if valid(Entered(defaultValue, lines[0])) then Ok(Entered(defaultValue, lines[0]))
    else
      var r := PromptForInput(defaultValue, lines[1..], valid);
      assert forall i :: 1 <= i < |lines| ==> lines[i] == lines[1..][i - 1];
      if r.Ok? then
        var k :| 0 <= k < |lines[1..]| && Entered(defaultValue, lines[1..][k]) == r.value
                 && forall i :: 0 <= i < k ==> !valid(Entered(defaultValue, lines[1..][i]));
        assert lines[k + 1] == lines[1..][k];
        r
      else r
  }

  datatype NameError = EmptyName | NameTaken

  /** The validator of PromptForSecretName. */
  function ValidateSecretName(existing: seq<Secret>, input: GoString): (r: Option<NameError>)
    ensures r == Some(EmptyName) <==> input == []
    ensures r == Some(NameTaken) <==> input != [] && HasName(existing, input)
    ensures r.None? <==> input != [] && !HasName(existing, input)
  {
    if input == [] then Some(EmptyName)
    else if FirstIndex(existing, input).Some? then Some(NameTaken)
    else None
  }

  /** `PromptForSecretName(existing)`: a non-empty name no existing secret has. */
  function PromptForSecretName(existing: seq<Secret>, lines: seq<Answer>): (r: Result<GoString, PromptError>)
    ensures r.Ok? ==> r.value != [] && !HasName(existing, r.value)
    ensures r.Err? <==> forall i :: 0 <= i < |lines| ==> Entered([], lines[i]) == [] || HasName(existing, Entered([], lines[i]))
  {
    PromptForInput([], lines, input => ValidateSecretName(existing, input).None?)
  }

  const Int64Min := -0x8000_0000_0000_0000
  const Int64Max := 0x7fff_ffff_ffff_ffff

  /** The value of a string of decimal digits. */
  function DigitsValue(s: GoString): (n: nat)
    requires AllDigits(s)
  {
    if |s| == 0 then 0 else 10 * DigitsValue(s[..|s| - 1]) + (s[|s| - 1] as int - 48)
  }

  /**
   * `strconv.Atoi` on a 64-bit platform: an optional sign and at least one
   * decimal digit, with a value that fits in an `int`.
   */
  function Atoi(s: GoString): (r: Option<int>)
    ensures r.Some? ==> Int64Min <= r.value <= Int64Max
    ensures r.Some? ==> |s| > 0
    ensures AllDigits(s) && |s| > 0 && DigitsValue(s) <= Int64Max ==> r == Some(DigitsValue(s))
  {
    if |s| == 0 then None
    else
      var negative := s[0] == 45;   // '-'
      var digits := if s[0] == 43 || s[0] == 45 then s[1..] else s;   // '+' or '-'
      if |digits| == 0 || !AllDigits(digits) then None
      else
        var magnitude: int := DigitsValue(digits);
        var v := if negative then 0 - magnitude else magnitude;
        if v < Int64Min || v > Int64Max then None else Some(v)
  }

  /** The decimal digits of `n`, most significant first. */
  function NatDigits(n: nat): (s: GoString)
    ensures |s| > 0 && AllDigits(s)
    ensures DigitsValue(s) == n
  {
    var last := (48 + n % 10) as byte;
    if n < 10 then [last]
    else
      var prefix := NatDigits(n / 10);
      var s := prefix + [last];
      assert s[..|s| - 1] == prefix;
      s
  }

  /** `strconv.Itoa`. */
  function Itoa(n: int): (s: GoString)
    ensures |s| > 0
  {
    if n < 0 then [45 as byte] + NatDigits(-n) else NatDigits(n)
  }

  /** Atoi reads back what Itoa writes, for every 64-bit integer. */
  lemma AtoiItoa(n: int)
    requires Int64Min <= n <= Int64Max
    ensures Atoi(Itoa(n)) == Some(n)
  {
    if n < 0 {
      var s := Itoa(n);
      assert s[1..] == NatDigits(-n);
    }
  }

  datatype IntError = NotANumber | OutOfRange

  /** The validator of PromptForInt: the empty text is accepted. */
  function ValidateInt(input: GoString, min: int, max: int): (r: Option<IntError>)
    ensures input == [] ==> r.None?
    ensures r.None? && input != [] ==> Atoi(input).Some? && min <= Atoi(input).value <= max
    ensures input != [] && Atoi(input).None? ==> r == Some(NotANumber)
  {
    if input == [] then None
    else match Atoi(input)
      case None => Some(NotANumber)
      case Some(v) => if v < min || v > max then Some(OutOfRange) else None
  }

  /**
   * `PromptForInt(label, defaultValue, min, max)`. The default is offered as
   * the prompt's text `strconv.Itoa(defaultValue)` and is validated like a
   * typed number when accepted; an erased, empty submission passes the
   * validator and returns `defaultValue` without a range check.
   */
  function PromptForInt(lines: seq<Answer>, defaultValue: int, min: int, max: int): (r: Result<int, PromptError>)
    ensures r.Ok? ==> min <= r.value <= max || r.value == defaultValue
    ensures r.Err? <==> forall i :: 0 <= i < |lines| ==> ValidateInt(Entered(Itoa(defaultValue), lines[i]), min, max).Some?
    ensures r.Err? ==> r.error == Aborted
  {
    match PromptForInput(Itoa(defaultValue), lines, input => ValidateInt(input, min, max).None?)
    case Err(e) => Err(e)
    case Ok(input) => if input == [] then Ok(defaultValue) else Ok(Atoi(input).value)
  }

  /** Accepting the offered default returns it when it lies within [min, max]. */
  lemma PromptForIntDefault(lines: seq<Answer>, defaultValue: int, min: int, max: int)
    requires |lines| > 0 && lines[0] == AcceptDefault
    requires min <= defaultValue <= max && Int64Min <= defaultValue <= Int64Max
    ensures PromptForInt(lines, defaultValue, min, max) == Ok(defaultValue)
  {
    AtoiItoa(defaultValue);
  }

  /** An erased, empty submission returns the default, even one outside [min, max]. */
  lemma PromptForIntErasedDefault(lines: seq<Answer>, defaultValue: int, min: int, max: int)
    requires |lines| > 0 && lines[0] == Submit([])
    ensures PromptForInt(lines, defaultValue, min, max) == Ok(defaultValue)
  {
    assert ValidateInt(Entered(Itoa(defaultValue), lines[0]), min, max).None?;
  }

  /** A typed number within [min, max] is returned. */
  lemma PromptForIntTyped(lines: seq<Answer>, v: int, defaultValue: int, min: int, max: int)
    requires |lines| > 0 && lines[0] == Submit(Itoa(v))
    requires min <= v <= max && Int64Min <= v <= Int64Max
    ensures PromptForInt(lines, defaultValue, min, max) == Ok(v)
  {
    AtoiItoa(v);
  }

  /** The validator of the manual branch of PromptForSecretValue. */
  predicate ValidValue(input: GoString) {
    input != []
  }

  /** The validator of the password-length prompt: a positive integer. */
  predicate ValidLength(input: GoString) {
    Atoi(input).Some? && Atoi(input).value > 0
  }

  /** The text the password-length prompt offers as its default. */
  const DefaultLength: GoString := Lit("16")

  /** The answers to PromptForSecretValue's questions. */
  datatype ValueAnswers =
    | MethodNotChosen                                                      // the first select failed
    | Manual(valueLines: seq<Answer>)                                      // "Enter value manually"
    | Generate(lengthLines: seq<Answer>, symbols: Option<bool>, numbers: Option<bool>)  // "Generate password"

  /** `PromptForSecretValue()`; the clipboard copy is left out. */
  function PromptForSecretValue(answers: ValueAnswers, pick: Picker): (r: Result<GoString, PromptError>)
    requires PickerOk(pick)
    ensures r.Ok? ==> r.value != []
    ensures answers.Manual? ==> r == PromptForInput([], answers.valueLines, ValidValue)
  {
    match answers
    case MethodNotChosen => Err(SelectFailed)
    case Manual(lines) => PromptForInput([], lines, ValidValue)
    case Generate(lengthLines, symbols, numbers) =>
      match PromptForInput(DefaultLength, lengthLines, ValidLength)
      case Err(e) => Err(e)
      case Ok(lengthStr) =>
        if symbols.None? || numbers.None? then Err(SelectFailed)
        else match Password(Atoi(lengthStr).value, symbols.value, numbers.value, pick)
          case Err(e) => Err(GenerateError(e))
          case Ok(value) => Ok(value)
  }

  /** Accepting the offered length "16" generates a password of 16 characters from the chosen alphabet. */
  lemma DefaultLengthGenerates(lengthLines: seq<Answer>, symbols: bool, numbers: bool, pick: Picker)
    requires PickerOk(pick)
    requires |lengthLines| > 0 && lengthLines[0] == AcceptDefault
    ensures var r := PromptForSecretValue(Generate(lengthLines, Some(symbols), Some(numbers)), pick);
            && (r.Ok? <==> Password(16, symbols, numbers, pick).Ok?)
            && (r.Ok? ==> |r.value| == 16 && forall i :: 0 <= i < 16 ==> r.value[i] in Alphabet(symbols, numbers))
  {
    assert DefaultLength == [49, 54];
    assert AllDigits(DefaultLength) && DigitsValue(DefaultLength) == 16 by {
      assert DefaultLength[..1] == [49];
      var one: GoString := [49];
      assert one[..0] == [];
      assert DigitsValue(one) == 1;
    }
    assert ValidLength(Entered(DefaultLength, lengthLines[0]));
  }

  /** `PromptForCategory()`: any line, including the empty one. */
  function PromptForCategory(lines: seq<Answer>): (r: Result<GoString, PromptError>)
    ensures |lines| > 0 ==> r == Ok(Entered([], lines[0]))
    ensures |lines| == 0 ==> r == Err(Aborted)
  {
    PromptForInput([], lines, _ => true)
  }

  /** The select menu item of a secret: `fmt.Sprintf("%s (%s)", Name, Category)`. */
  function Label(s: Secret): (r: GoString)
    ensures HasPrefix(r, s.name)
  {
    var r := s.name + Lit(" (") + s.category + Lit(")");
    assert r[..|s.name|] == s.name;
    r
  }

  /** The position of the first secret whose name is a prefix of `choice`. */
  function FirstPrefixOwner(secrets: seq<Secret>, choice: GoString): (r: Option<nat>)
    ensures r.None? <==> forall i :: 0 <= i < |secrets| ==> !HasPrefix(choice, secrets[i].name)
    ensures r.Some? ==> r.value < |secrets| && HasPrefix(choice, secrets[r.value].name)
    ensures r.Some? ==> forall j :: 0 <= j < r.value ==> !HasPrefix(choice, secrets[j].name)
  {
    if |secrets| == 0 then None
    else if HasPrefix(choice, secrets[0].name) then Some(0)
    else match FirstPrefixOwner(secrets[1..], choice)
      case None =>
        assert forall i :: 1 <= i < |secrets| ==> secrets[i] == secrets[1..][i - 1];
        None
      case Some(i) => Some(i + 1)
  }

  /**
   * `PromptForSecret(secrets)` as written, `selected` being the menu entry
   * picked (`None`: the select failed). It returns the first secret whose
   * name is a prefix of the chosen label, which need not be the one picked.
   */
  function PromptForSecret(secrets: seq<Secret>, selected: Option<nat>): (r: Result<Secret, PromptError>)
    requires selected.Some? && |secrets| > 0 ==> selected.value < |secrets|
    ensures |secrets| == 0 ==> r == Err(NoSecrets)
    ensures |secrets| > 0 && selected.None? ==> r == Err(SelectFailed)
    ensures |secrets| > 0 && selected.Some? ==>
              r.Ok? && r.value == secrets[FirstPrefixOwner(secrets, Label(secrets[selected.value])).value]
  {
    if |secrets| == 0 then Err(NoSecrets)
    else match selected
      case None => Err(SelectFailed)
      case Some(k) =>
        match FirstPrefixOwner(secrets, Label(secrets[k]))
        case None => Err(SelectionNotFound)
        case Some(i) => Ok(secrets[i])
  }

  /** A picked secret is returned unless an earlier secret's name is a prefix of its label. */
  lemma PromptForSecretPicksSelected(secrets: seq<Secret>, k: nat)
    requires k < |secrets|
    requires forall j :: 0 <= j < k ==> !HasPrefix(Label(secrets[k]), secrets[j].name)
    ensures PromptForSecret(secrets, Some(k)) == Ok(secrets[k])
  {
    var i := FirstPrefixOwner(secrets, Label(secrets[k])).value;
    assert i <= k;
  }

  /** With secrets "a" and "ab", picking "ab" returns "a". */
  lemma PromptForSecretPicksWrong()
    ensures var a := Secret(Lit("a"), Lit("1"), [], ZeroTime);
            var ab := Secret(Lit("ab"), Lit("2"), [], ZeroTime);
            PromptForSecret([a, ab], Some(1)) == Ok(a)
  {
    var a := Secret(Lit("a"), Lit("1"), [], ZeroTime);
    var ab := Secret(Lit("ab"), Lit("2"), [], ZeroTime);
    var item := Label(ab);
    assert item[..1] == Lit("a");
  }

  /** The secret picker with the selected entry returned directly, as intended. */
  function SelectSecret(secrets: seq<Secret>, selected: Option<nat>): (r: Result<Secret, PromptError>)
    requires selected.Some? && |secrets| > 0 ==> selected.value < |secrets|
    ensures |secrets| == 0 ==> r == Err(NoSecrets)
    ensures |secrets| > 0 && selected.None? ==> r == Err(SelectFailed)
    ensures |secrets| > 0 && selected.Some? ==> r == Ok(secrets[selected.value])
  {
    if |secrets| == 0 then Err(NoSecrets)
    else match selected
      case None => Err(SelectFailed)
      case Some(k) => Ok(secrets[k])
  }
}
