/** Character classes shared by the readers of text. */
module Characters {
  /** The Unicode White_Space property. */
  predicate IsSpace(ch: char) {
    var code := ch as int;
    || 0x9 <= code <= 0xD || code == 0x20 || code == 0x85 || code == 0xA0 || code == 0x1680
    || 0x2000 <= code <= 0x200A || code == 0x2028 || code == 0x2029 || code == 0x202F || code == 0x205F
    || code == 0x3000
  }
}
