// tenantctx/tenantctx.go: the tenant a request context carries, as text.
module TenantContext {
  import opened Wrappers
  import opened Schema

  const SYSTEM_TENANT := "ADMIN_SYSTEM"

  datatype Context = Context(tenant: Option<string>)

  function WithTenantIDString(ctx: Context, tenant: string): Context { ctx.(tenant := Some(tenant)) }

  function WithTenantID(ctx: Context, id: Uuid): Context { WithTenantIDString(ctx, UuidText(id)) }

  function WithSystemTenant(ctx: Context): Context { WithTenantIDString(ctx, SYSTEM_TENANT) }

  function TenantIDString(ctx: Context): Option<string> {
    if ctx.tenant == Some("") then None else ctx.tenant
  }

  // ----- the text of an identifier: 32 hexadecimal digits in groups of 8, 4, 4, 4 and 12 -----

  function HexDigit(d: int): (c: char)
    requires 0 <= d < 16
  {
    if d < 10 then ('0' as int + d) as char else ('a' as int + d - 10) as char
  }

  function Hex(n: nat, width: nat): (s: string)
    ensures |s| == width
  {
    if width == 0 then "" else Hex(n / 16, width - 1) + [HexDigit(n % 16)]
  }

  function UuidText(id: Uuid): (s: string)
    ensures |s| == 36
  {
    var h := Hex(id, 32);
    h[..8] + "-" + h[8..12] + "-" + h[12..16] + "-" + h[16..20] + "-" + h[20..]
  }

  function Pow16(width: nat): nat {
    if width == 0 then 1 else 16 * Pow16(width - 1)
  }

  lemma {:induction false} HexInjective(m: nat, n: nat, width: nat)
    requires m < Pow16(width) && n < Pow16(width) && Hex(m, width) == Hex(n, width)
    ensures m == n
  {
    if width > 0 {
      var a, b := Hex(m, width), Hex(n, width);
      assert a[..width - 1] == Hex(m / 16, width - 1) && b[..width - 1] == Hex(n / 16, width - 1);
      assert a[width - 1] == HexDigit(m % 16) && b[width - 1] == HexDigit(n % 16);
      HexInjective(m / 16, n / 16, width - 1);
    }
  }

  // The digits of an identifier's text are those of its number.
  lemma TextShowsDigits(id: Uuid)
    ensures var h, s := Hex(id, 32), UuidText(id);
      && h[..8] == s[..8] && h[8..12] == s[9..13] && h[12..16] == s[14..18]
      && h[16..20] == s[19..23] && h[20..] == s[24..]
  {
    var h, s := Hex(id, 32), UuidText(id);
    var tail := h[16..20] + "-" + h[20..];
    assert s == h[..8] + "-" + (h[8..12] + "-" + (h[12..16] + "-" + tail));
    assert s[9..] == h[8..12] + "-" + (h[12..16] + "-" + tail);
    assert s[14..] == h[12..16] + "-" + tail;
    assert s[19..] == tail;
  }

  lemma UuidsFit()
    ensures Pow16(32) == 0x1_0000_0000_0000_0000_0000_0000_0000_0000
  {
    assert Pow16(8) == 0x1_0000_0000;
    assert Pow16(16) == 0x1_0000_0000_0000_0000;
    assert Pow16(24) == 0x1_0000_0000_0000_0000_0000_0000;
  }

  lemma PiecesDetermine(a: string, b: string)
    requires |a| == |b| == 32
    requires a[..8] == b[..8] && a[8..12] == b[8..12] && a[12..16] == b[12..16]
    requires a[16..20] == b[16..20] && a[20..] == b[20..]
    ensures a == b
  {
    forall s: string | |s| == 32 ensures s == s[..8] + s[8..12] + s[12..16] + s[16..20] + s[20..] {}
  }

  // Different tenants have different texts.
  lemma TextInjective(x: Uuid, y: Uuid)
    requires UuidText(x) == UuidText(y)
    ensures x == y
  {
    TextShowsDigits(x);
    TextShowsDigits(y);
    PiecesDetermine(Hex(x, 32), Hex(y, 32));
    UuidsFit();
    HexInjective(x, y, 32);
  }

  // A tenant put into a context comes out as that tenant and as nothing else, the system tenant included.
  lemma TenantReadsBack(ctx: Context, id: Uuid)
    ensures TenantIDString(WithTenantID(ctx, id)) == Some(UuidText(id))
    ensures UuidText(id) != "" && UuidText(id) != SYSTEM_TENANT
    ensures forall other | TenantIDString(WithTenantID(ctx, id)) == TenantIDString(WithTenantID(ctx, other)) ::
      id == other
  {
    forall other | UuidText(id) == UuidText(other) ensures id == other {
      TextInjective(id, other);
    }
  }

  // ----- reading the text back -----

  function HexValue(c: char): Option<nat> {
    if '0' <= c <= '9' then Some(c as int - '0' as int)
    else if 'a' <= c <= 'f' then Some(c as int - 'a' as int + 10)
    else None
  }

  function ReadHex(s: string): Option<nat> {
    if s == "" then Some(0)
    else match (ReadHex(s[..|s| - 1]), HexValue(s[|s| - 1]))
      case (Some(n), Some(d)) => Some(16 * n + d)
      case _ => None
  }

  lemma {:induction false} HexReadsBack(n: nat, width: nat)
    requires n < Pow16(width)
    ensures ReadHex(Hex(n, width)) == Some(n)
  {
    if width > 0 {
      HexReadsBack(n / 16, width - 1);
      var s := Hex(n, width);
      assert s[..width - 1] == Hex(n / 16, width - 1);
      assert HexValue(HexDigit(n % 16)) == Some(n % 16);
    }
  }

  // The text form of section 3 of RFC 4122: groups of lower-case digits behind dashes, most significant first.
  function ReadUuid(s: string): Option<nat> {
    if |s| == 36 && s[8] == '-' && s[13] == '-' && s[18] == '-' && s[23] == '-'
    then ReadHex(s[..8] + s[9..13] + s[14..18] + s[19..23] + s[24..]) else None
  }

  lemma DashesAt(id: Uuid)
    ensures var s := UuidText(id); s[8] == '-' && s[13] == '-' && s[18] == '-' && s[23] == '-'
  {
    var h, s := Hex(id, 32), UuidText(id);
    var tail := h[16..20] + "-" + h[20..];
    assert s == h[..8] + "-" + (h[8..12] + "-" + (h[12..16] + "-" + tail));
    assert s[9..] == h[8..12] + "-" + (h[12..16] + "-" + tail);
    assert s[9..][4] == '-' && s[14..] == h[12..16] + "-" + tail;
    assert s[14..][4] == '-' && s[19..] == tail && tail[4] == '-';
  }

  // The text of an identifier reads back as it, and so does the tenant of a context.
  lemma TextReadsBack(ctx: Context, id: Uuid)
    ensures ReadUuid(UuidText(id)) == Some(id)
    ensures TenantIDString(WithTenantID(ctx, id)).Some?
    ensures ReadUuid(TenantIDString(WithTenantID(ctx, id)).value) == Some(id)
  {
    var h, s := Hex(id, 32), UuidText(id);
    TextShowsDigits(id);
    DashesAt(id);
    assert h == h[..8] + h[8..12] + h[12..16] + h[16..20] + h[20..];
    UuidsFit();
    HexReadsBack(id, 32);
    TenantReadsBack(ctx, id);
  }
}
