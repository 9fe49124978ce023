# Gamepad and step-motor firmware: a Dafny model

This firmware runs on RT-Thread and turns a microcontroller board into a USB HID gamepad. A 4x4 key matrix and two analog sticks are read in a thread loop. The loop maps the readings onto a packed 9-byte input report and sends it through the CherryUSB interrupt endpoint. The send is guarded by an IDLE/BUSY flag, which the endpoint's completion callback releases. Beside the gamepad, two ZDT stepper-motor drivers answer over UART. Each motor axis drains its UART DMA buffer into a ring buffer from the receive callback. A task later empties the ring buffer into a parse buffer and hands the bytes to the driver's response parser.

The model covers:

- the report layout and constants of `usb_app.h`;
- the constant descriptor tables of `usb_app.c`;
- the HID flag state machine (`hid_gamepad_send_report`, `usbd_hid_int_callback`, `usbd_event_handler`, `hid_gamepad_init`);
- the stick conversion and reads of `joystick_app.c`;
- the matrix scan `key_read` of `key_app.c`;
- the helpers and one loop pass of `gamepad_app.c`;
- the UART receive path of `step_motor_app.c`.

Modules, one per file:

| module | file | models |
|---|---|---|
| `CInts` | cints.dfy | C integer widths, byte images, truncating division, the `(int16_t)` cast |
| `Pins` | pins.dfy | pin levels |
| `UsbReport` | usb_report.dfy | `usb_app.h`: constants, button bits, hat values, return codes, the report and its 9-byte image |
| `HidReportDescriptor` | hid_report_descriptor.dfy | `hid_gamepad_report_desc`, read by an interpreter of HID 1.11 short items |
| `UsbDescriptors` | usb_descriptors.dfy | `hid_descriptor`: the device, configuration, interface, HID, endpoint and string descriptors |
| `UsbApp` | usb_app.dfy | `hid_state` and `gamepad_report` as a class; send, completion and event calls; the test sweep's values |
| `Joystick` | joystick.dfy | `adc_to_axis`, `adc_read_channel`, `joystick_init`, `joystick_left_read`/`_right_read` |
| `KeyScan` | key_scan.dfy | `key_read` over a column-pin array and a pressed-key matrix |
| `Gamepad` | gamepad.dfy | `apply_deadzone`, `scale_axis`, `axis_changed`, the button mapping and one pass of `gamepad_thread_entry` |
| `StepMotor` | step_motor.dfy | the per-axis DMA, ring and parse buffers, the two receive callbacks and `step_motor_task` |

Functions that change state in the C code are methods on classes that hold the C statics. Examples:

- `UsbApp.HidGamepad` holds `hid_state` and `gamepad_report`.
- `Gamepad.GamepadApp` holds `current_buttons`, `pending_send` and the `last_*` values.
- `StepMotor.Axis` holds one axis's buffers.

Each method's contract ties its result and new state to a pure function, and lemmas state what those functions guarantee. For example, `UsbApp.HidGamepad.SendReport` is tied to `UsbApp.Send`, and `StepMotor.Axis.Process` to `StepMotor.AxisEvents`.

Notes on the source:

- The layout comment in `applications/gamepad_app.h:29-33` numbers the keys row by row. `key_read` (applications/key_app.c:67) computes `col * 4 + row`, which numbers them column by column. The model follows the code.
- The comment at `applications/usb_app.c:178` says the hat's centre is 0 and its directions are 1-8. The descriptor (logical range 0..7 with the Null State flag) and `usb_app.h:75-83` (directions 0..7, centre 8) say otherwise. The model follows the descriptor and the header.

## Model

| member | source | states |
|---|---|---|
| `CInts.TruncDiv` | applications/gamepad_app.c:31 | C's `/` for a positive divisor truncates toward zero: the quotient times the divisor lies between 0 and the dividend, less than one divisor away |
| `CInts.ToInt16` | applications/joystick_app.c:76 | the `(int16_t)` cast of a `uint32_t` gives the int16 value congruent to it modulo 2^16 |
| `UsbReport.ButtonBit` | applications/usb_app.h:55-70 | each button mask is a single nonzero bit |
| `UsbReport.ButtonMasksAreTheSixteenBits` | applications/usb_app.h:55-70 | the 16 `GAMEPAD_BUTTON_*` masks are bits 0 to 15 in order and pairwise disjoint |
| `UsbReport.SingleBitsDisjoint` | applications/usb_app.h:55-70 | two different button bits share no bit |
| `UsbReport.Encode` | applications/usb_app.h:42-51 | the packed report image is HID_INT_EP_SIZE (9) bytes, buttons little-endian in bytes 0-1, hat in byte 8 |
| `UsbReport.Decode` | applications/usb_app.h:42-51 | reading a 9-byte image takes the buttons from bytes 0-1 and the hat from byte 8 |
| `UsbReport.DecodeEncode` | applications/usb_app.h:42-51 | reading back a report's image gives the report |
| `UsbReport.EncodeDecode` | applications/usb_app.h:42-51 | every 9-byte image is the image of the report it reads as |
| `UsbReport.DecodeInjective` | applications/usb_app.h:42-51 | different 9-byte images read as different reports |
| `UsbReport.NeutralReportImage` | applications/usb_app.c:293-294 | the neutral report is sent as eight zero bytes and then 8 (hat centre) |
| `HidReportDescriptor.ReportDescFields` | applications/usb_app.c:141-194 | the report descriptor is HID_GAMEPAD_REPORT_DESC_SIZE (83) bytes and, read item by item per HID 1.11 section 6.2.2, declares exactly four input fields: 16x1-bit buttons, 4x8-bit signed sticks, 2x8-bit triggers, 1x8-bit hat |
| `HidReportDescriptor.ReportDescMatchesReportSize` | applications/usb_app.c:147-188 | the input fields total 72 bits, which is 8 * HID_INT_EP_SIZE and the bit size of every report image |
| `HidReportDescriptor.HatCenterReadsAsNull` | applications/usb_app.c:179-188 | the hat field spans 0..7 (GAMEPAD_HAT_UP..UP_LEFT) with the Null State flag, so GAMEPAD_HAT_CENTER (8) is outside it and reads as null (HID 1.11 section 6.2.2.5) |
| `UsbDescriptors.Utf16LeText` | applications/usb_app.c:63-114 | each character is one whole little-endian code unit, low byte plus 256 times high byte (a lone surrogate reads as U+FFFD), so both bytes of every unit count; a character is below 256 exactly when its unit's high byte is zero |
| `UsbDescriptors.HighByteIsRead` | applications/usb_app.c:63-114 | the unit 0x4D 0x00 reads as "M" but 0x4D 0x01 does not: a wrong high byte changes the text |
| `UsbDescriptors.NarrowTextIffNarrowUnits` | applications/usb_app.c:63-114 | the decoded text is one byte per character exactly when every code unit's high byte is zero |
| `UsbDescriptors.Utf16LeTextConcat` | applications/usb_app.c:63-114 | reading the UTF-16LE code units of two byte runs one after the other gives the two runs' texts one after the other, so a string descriptor can be read in parts |
| `UsbDescriptors.DescriptorsConcat` | applications/usb_app.c:16-130 | a run of self-delimiting descriptors, each bLength long, is split back into exactly those descriptors |
| `UsbDescriptors.TableLayout` | applications/usb_app.c:16-130 | `hid_descriptor` splits by bLength into nine descriptors: device, configuration, interface, HID, endpoint and four string descriptors, in that order |
| `UsbDescriptors.ConfigTotalLength` | applications/usb_app.c:23-57 | wTotalLength is USB_HID_CONFIG_DESC_SIZ (34), the total length of the configuration, interface, HID and endpoint descriptors (sections 9.6.3, 9.6.5 and 9.6.6 of the USB 2.0 specification) |
| `UsbDescriptors.HidDescriptorLength` | applications/usb_app.c:40-48 | the HID descriptor announces one report descriptor whose wItemLength has low byte 83 and high byte 0, the length of the report descriptor table |
| `UsbDescriptors.EndpointCarriesOneReport` | applications/usb_app.c:29-57 | the one endpoint is interrupt IN endpoint 1 with interval 1, and its wMaxPacketSize equals the report image size (9) |
| `UsbDescriptors.ConfigPower` | applications/usb_app.c:23-26 | the configuration asks for USBD_MAX_POWER 100 mA, encoded as 50 units of 2 mA (section 9.6.3 of the USB 2.0 specification) |
| `UsbDescriptors.ManufacturerString` | applications/usb_app.c:63-80 | bLength 0x22 is 2 + 2 x 16 characters, the body's whole code units decode to the manufacturer text, and every high byte is zero |
| `UsbDescriptors.ProductString` | applications/usb_app.c:83-99 | bLength 0x20 is 2 + 2 x 15 characters, the body's whole code units decode to the product text, and every high byte is zero |
| `UsbDescriptors.SerialString` | applications/usb_app.c:102-114 | bLength 0x18 is 2 + 2 x 11 characters, the body's whole code units decode to the serial-number text, and every high byte is zero (section 9.6.7 of the USB 2.0 specification) |
| `UsbDescriptors.StringIndices` | applications/usb_app.c:18-20 | the device descriptor's string indices 1, 2 and 3 select the manufacturer, product and serial descriptors that follow LANGID descriptor zero |
| `UsbDescriptors.DeviceIdentity` | applications/usb_app.c:18-20 | the device descriptor carries USBD_VID, USBD_PID, bcdUSB 2.00 and one configuration, and the LANGID descriptor carries 1033 |
| `UsbApp.AfterEvent` | applications/usb_app.c:214-252 | DISCONNECTED and CONFIGURED leave the flag IDLE, every other event leaves it as it was, so no event makes the endpoint BUSY |
| `UsbApp.Send` | applications/usb_app.c:301-332 | the result is one of 0/-1/-2/-3; -1 exactly when not configured and -2 exactly when configured and BUSY, both leaving flag and buffer unchanged; 0 exactly when configured, IDLE and the write starts, leaving BUSY; -3 restores IDLE; a caller's report is copied in before a write attempt, NULL or the buffer itself sends it as is |
| `UsbApp.SentPacket` | applications/usb_app.c:322-324 | a write attempt hands the endpoint HID_INT_EP_SIZE bytes that read back as the buffer after the copy; no write attempt, no bytes |
| `UsbApp.HidGamepad.constructor` | applications/usb_app.c:201-204 | the flag starts IDLE and the report buffer zero-filled |
| `UsbApp.HidGamepad.Init` | applications/usb_app.c:292-294 | the report is reset to all zero with the hat centred; the flag is untouched |
| `UsbApp.HidGamepad.SendReport` | applications/usb_app.c:301-332 | the result, new flag, new buffer and the bytes written are those `Send` and `SentPacket` give for the old flag and buffer |
| `UsbApp.HidGamepad.IntCallback` | applications/usb_app.c:255-263 | the completion callback always sets IDLE and leaves the report alone |
| `UsbApp.HidGamepad.EventHandler` | applications/usb_app.c:214-252 | DISCONNECTED and CONFIGURED set IDLE; every other event leaves the flag unchanged |
| `UsbApp.BusyRejectsSends` | applications/usb_app.c:309-311 | while BUSY and no completion, disconnection or configuration arrives, every send returns -1 or -2 and the flag stays BUSY; without application writes to the buffer the driver does not change at all |
| `UsbApp.ReleaseAllowsSend` | applications/usb_app.c:214-263 | after a completion, disconnection or configuration, a configured send whose write starts returns 0 |
| `UsbApp.SentReportStaysBuffered` | applications/usb_app.c:314-331 | after a successful send the flag stays BUSY, and the transmitted report stays in the buffer through sends and non-releasing events, as long as the application does not write the buffer |
| `UsbApp.BufferWriteDuringTransfer` | applications/usb_app.c:335-338 | the driver does not guard the buffer in flight: after a successful send, an application write through `hid_gamepad_get_report` replaces the report being transmitted while the flag stays BUSY |
| `UsbApp.TestStepReport` | applications/usb_app.c:361-376 | step i of the test sweep sets both left axes to i * 127 / 100 (in 0..125), the right axes to its negation, the left trigger to i * 255 / 100 and the right trigger to the rest of 255, button bit i mod 16 and hat i mod 9 |
| `UsbApp.TestSweepMonotone` | applications/usb_app.c:361-376 | the stick and left trigger values never decrease over the sweep, and step 8 sends the centred hat |
| `Joystick.AdcToAxis` | applications/joystick_app.c:71-77 | a reading up to 65535 gives reading - 32768 with no int16 wrap; a larger reading is clamped and gives 32767 |
| `Joystick.AdcToAxisMonotone` | applications/joystick_app.c:71-77 | a larger reading never gives a smaller axis value |
| `Joystick.AdcToAxisEnds` | applications/joystick_app.c:26-27 | 0, the mid value 32768, 65535 and the largest uint32_t map to -32768, 0, 32767 and 32767 |
| `Joystick.ReadChannel` | applications/joystick_app.c:62-68 | with an ADC device the channel's reading, without one the mid value 32768 |
| `Joystick.NoAdcReadsCentred` | applications/joystick_app.c:62-68 | without an ADC device every channel reads the mid value, so every axis is 0 |
| `Joystick.JoystickDriver.constructor` | applications/joystick_app.c:31 | no ADC device before init |
| `Joystick.JoystickDriver.Init` | applications/joystick_app.c:35-57 | the device is recorded as found or not, and RT_EOK is returned either way |
| `Joystick.JoystickDriver.LeftRead` | applications/joystick_app.c:82-92 | NULL gives -RT_EINVAL; otherwise RT_EOK, and the struct holds the converted channel 0 and 1 readings and whether pin P3_7 reads low |
| `Joystick.JoystickDriver.RightRead` | applications/joystick_app.c:95-105 | NULL gives -RT_EINVAL; otherwise RT_EOK, and the struct holds the converted channel 8 and 13 readings and whether pin P3_6 reads low |
| `Joystick.JoystickDriver.ReadStick` | applications/joystick_app.c:82-105 | the shared body of the two reads, for any channel pair and pin |
| `KeyScan.DriveOnly` | applications/key_app.c:54-57 | the levels that scan a column are low on exactly that column |
| `KeyScan.DrivenRowRead` | applications/key_app.c:54-67 | with one column driven low, a row reads low exactly when the key at that column and row is pressed |
| `KeyScan.KeyRead` | applications/key_app.c:46-81 | the result is the first pressed key in column-major order (0xFF if none); all four columns are high on return; the reads are column by column, one driven column at a time, stopping after the hit, so at most 16 |
| `KeyScan.DriveColumn` | applications/key_app.c:54-57 | the scanned column is low and the other three high |
| `KeyScan.ScanColumn` | applications/key_app.c:63-70 | the rows of one column are read in order up to the first pressed key, which is the hit |
| `KeyScan.NoKeyIffNonePressed` | applications/key_app.c:48-71 | the result is 0xFF exactly when no key of the matrix is pressed |
| `KeyScan.FirstHitWins` | applications/key_app.c:51-69 | any other result is below 16, names a pressed key at col * 4 + row, and every key in a lower column, or lower in the same column, is released |
| `KeyScan.FirstPressedAt` | applications/key_app.c:67 | a pressed key with every earlier key released is reported as col * 4 + row |
| `Gamepad.ApplyDeadzone` | applications/gamepad_app.c:21-26 | the result is 0 exactly when -2000 < v < 2000, and v otherwise |
| `Gamepad.DeadzoneIdempotent` | applications/gamepad_app.c:21-26 | applying the dead zone twice is applying it once |
| `Gamepad.ScaleAxis` | applications/gamepad_app.c:29-35 | the result lies in [-127, 127] |
| `Gamepad.ScaleAxisQuotient` | applications/gamepad_app.c:31 | the result is v * 127 / 32768 truncated toward zero |
| `Gamepad.ScaledInRange` | applications/gamepad_app.c:31-33 | the truncated quotient is already in [-127, 126], so neither clamp ever applies |
| `Gamepad.ScaleAxisSign` | applications/gamepad_app.c:29-35 | zero maps to zero, the sign is kept, and the result is 0 exactly for -258 <= v <= 258 |
| `Gamepad.ScaleAxisOdd` | applications/gamepad_app.c:31 | mirrored values (other than -32768) scale to mirrored results |
| `Gamepad.DeadzonedAxisZero` | applications/gamepad_app.c:77-80 | an axis reported by the loop is 0 exactly when the stick is inside the dead zone |
| `Gamepad.AxisChanged` | applications/gamepad_app.c:38-43 | true exactly when the two values are more than 500 apart |
| `Gamepad.AxisChangedSymmetric` | applications/gamepad_app.c:38-43 | the test is symmetric and false for equal values |
| `Gamepad.ButtonsFor` | applications/gamepad_app.c:96-105 | bits 0-13 are set exactly for the matrix key (none for 14, 15 or 0xFF); bit 14 iff the left stick button, bit 15 iff the right |
| `Gamepad.FilledReport` | applications/gamepad_app.c:108-115 | the report carries the mapped buttons, triggers 0 and the hat centred, and each axis is 0 exactly when its stick value is inside the dead zone |
| `Gamepad.RestingInputsGiveNeutralReport` | applications/gamepad_app.c:96-115 | no key, no stick button and both sticks inside the dead zone fill exactly the neutral report of `hid_gamepad_init` |
| `Gamepad.Changed` | applications/gamepad_app.c:83-88 | another key, another stick-button state, or an axis that moved more than 500 after the dead zone is a change, and with key and buttons the same only such an axis is; inputs equal to the last sent ones never are |
| `Gamepad.StickLeavingDeadzoneIsChange` | applications/gamepad_app.c:77-88 | a stick axis moving from inside the dead zone to 2000 or more away from the centre is always a change |
| `Gamepad.UnchangedInputsAreQuiet` | applications/gamepad_app.c:83-88 | inputs equal to the last sent ones, or a stick moving only inside the dead zone, are no change |
| `Gamepad.GamepadApp.constructor` | applications/gamepad_app.c:48-54 | no buttons, nothing pending, last key 0xFF, last sticks zero; the empty button field is the mapping of no key and no stick button |
| `Gamepad.GamepadApp.Buttons` | applications/gamepad_app.c:175-178 | `gamepad_get_buttons` returns the buttons of the last active pass: bit k (k < 14) exactly for matrix key k, bit 14 for the left and bit 15 for the right stick button |
| `Gamepad.GamepadApp.Step` | applications/gamepad_app.c:72-135 | with no change and nothing pending, nothing is touched and nothing sent; otherwise the buttons are mapped from this pass's inputs, which `gamepad_get_buttons` then reports, and the report is filled (triggers 0, hat centre, axes scaled after the dead zone); a send happens exactly when also configured, with the flag outcome of `Send`; only 0 clears pending and records the inputs, -2 sets pending, anything else or no send changes neither |
| `Gamepad.GamepadApp.SendAndRecord` | applications/gamepad_app.c:118-134 | the buffer is sent as is; 0 clears pending and records key and sticks; -2 sets pending; any other result changes neither |
| `Gamepad.GamepadApp.MapButtons` | applications/gamepad_app.c:96-105 | the current button field becomes the mapping of this pass's key and stick buttons, which are recorded as the last mapped inputs; nothing else changes |
| `StepMotor.RingPut` | ZDT_42_STEP_MOTOR/step_motor_app.c:59 | the ring keeps what it held and appends the offered bytes in order, as many as fit in its 64 bytes |
| `StepMotor.RingGet` | ZDT_42_STEP_MOTOR/step_motor_app.c:95 | up to n bytes come out from the front and the rest stay, in order |
| `StepMotor.RingFifo` | ZDT_42_STEP_MOTOR/step_motor_app.c:41-42 | bytes that fit come out after what was queued, in order, and draining everything empties the ring |
| `StepMotor.FullRingDropsOffer` | ZDT_42_STEP_MOTOR/step_motor_app.c:59 | a full ring accepts nothing |
| `StepMotor.AxisEvents` | ZDT_42_STEP_MOTOR/step_motor_app.c:93-109 | an empty ring gives no parse and no output; otherwise exactly one event, handled with the response address iff the parser accepts exactly the drained bytes, else the error |
| `StepMotor.Zeros` | ZDT_42_STEP_MOTOR/step_motor_app.c:62 | a run of n zero bytes |
| `StepMotor.Clear` | ZDT_42_STEP_MOTOR/step_motor_app.c:112 | `memset(a, 0, n)` zeroes the first n bytes and keeps the rest |
| `StepMotor.CopyInto` | ZDT_42_STEP_MOTOR/step_motor_app.c:95 | the drained bytes are copied to the front of the buffer; the rest is kept |
| `StepMotor.Axis.constructor` | ZDT_42_STEP_MOTOR/step_motor_app.c:13-22 | zeroed buffers and an empty ring |
| `StepMotor.Axis.Callback` | ZDT_42_STEP_MOTOR/step_motor_app.c:53-67 | all 64 DMA bytes are offered to the ring and the DMA buffer is left zero |
| `StepMotor.Axis.Process` | ZDT_42_STEP_MOTOR/step_motor_app.c:92-113 | everything queued is drained and the ring left empty; events and response come from the parser on exactly those bytes; the terminator index, the number of bytes drained, lies inside the parse buffer; after a non-empty pass the used bytes and the terminator slot are zero; nothing beyond them changes |
| `StepMotor.StepMotorApp.constructor` | ZDT_42_STEP_MOTOR/step_motor_app.c:38-42 | both rings start empty and the axes own separate buffers |
| `StepMotor.StepMotorApp.CallbackX` | ZDT_42_STEP_MOTOR/step_motor_app.c:53-67 | X's ring takes its DMA bytes and X's DMA buffer is zeroed; the Y ring and buffers are unchanged |
| `StepMotor.StepMotorApp.CallbackY` | ZDT_42_STEP_MOTOR/step_motor_app.c:70-84 | Y's ring takes its DMA bytes and Y's DMA buffer is zeroed; the X ring and buffers are unchanged |
| `StepMotor.StepMotorApp.Task` | ZDT_42_STEP_MOTOR/step_motor_app.c:87-138 | the events are X's followed by Y's, each from its own queued bytes only; both rings end empty; each axis's used parse bytes are zero again and those past its terminator are untouched; an axis with queued bytes holds the parser's response to exactly those bytes, and an idle axis keeps its response and parse buffer |
| `StepMotor.FirstReceptionTerminator` | ZDT_42_STEP_MOTOR/step_motor_app.c:53-67 | after the first reception of any length and the receive callback, the ring holds the received bytes padded with zeros to 64, so the next task's terminator index is 64, the size of the parse buffer as declared |

## Left out

- The CherryUSB stack is not part of this model. `usb_device_is_configured` and the result of `usbd_ep_start_write` are arguments. `usbd_desc_register`, `usbd_add_interface`, `usbd_add_endpoint` and `usbd_initialize` are left out of `hid_gamepad_init`; only its report reset is modelled.
- The `USB_DEVICE_DESCRIPTOR_INIT`, `USB_CONFIG_DESCRIPTOR_INIT` and `USB_LANGID_INIT` macros are defined in CherryUSB, which is not part of this model. Their field order follows sections 9.6.1, 9.6.3 and 9.6.7 of the USB 2.0 specification.
- The values these macros fill in themselves are taken on trust from CherryUSB's expansion; the USB 2.0 specification does not fix them: bMaxPacketSize0 0x40, iManufacturer, iProduct and iSerialNumber 1, 2 and 3, and iConfiguration 0. `USB_CONFIG_BUS_POWERED` is likewise taken to be 0x80. `UsbDescriptors.StringIndices`, `UsbDescriptors.DeviceIdentity` and `UsbDescriptors.ConfigPower` rest on these values.
- The high-speed qualifier block under `#ifdef CONFIG_USB_HS` (applications/usb_app.c:116-128) is left out: the model is the full-speed table.
- RT-Thread is not part of this model: thread creation, `INIT_*_EXPORT`, `rt_thread_mdelay`, `rt_hw_us_delay` (key_read's 5 us settle time), `rt_kprintf` and `my_printf`. Log output appears only as the step-motor events. `RT_EINVAL` is taken as 10, its value in RT-Thread.
- `hid_gamepad_test` is modelled only through its per-step report values (`UsbApp.TestStepReport`). The busy-wait on the flag, the delays, the progress prints and the final neutral send are left out.
- `hid_gamepad_get_report` and `hid_gamepad_is_configured` are not separate members: the report is the `report` field, and the configured answer is an argument.
- `gamepad_app_start` and `gamepad_is_ready` are thread and stack plumbing and are left out. The endless loop of `gamepad_thread_entry` is modelled as one pass (`Gamepad.GamepadApp.Step`).
- The HAL UART and DMA calls (`HAL_UARTEx_ReceiveToIdle_DMA`, `HAL_UART_DMAStop`, `__HAL_DMA_DISABLE_IT`) are hardware I/O and are left out. So are `step_motor_app_init` (motor commands) and the receive start in `step_motor_app_uart_init`.
- `key_init`'s pin modes and `joystick_init`'s pin modes and channel enables are hardware set-up and are left out. `joystick_read_raw` is a debug helper and is left out.
- Interrupts and tasks are not interleaved: each callback and each task call is one atomic step.
- The `rt_ringbuffer` library is not part of this model. It is a FIFO of capacity 64 that accepts as much of an offer as fits and drops the rest. Its index arithmetic and its overwrite variant are not modelled.
- `Emm_V5_Parse_Response` and `Emm_V5_Handle_Response` are not part of this model. The parser is a function argument that returns a verdict and the response's `addr`. The handler's effect appears only as a `Handled` event.
- `Gamepad.ScaleAxis`: the `int32_t` product `v * 127` is taken as exact, because it cannot overflow for an int16 input.

## Findings

| source | as written | input that shows it | evidently intended | confidence | as-written member | corrected member |
|---|---|---|---|---|---|---|
| ZDT_42_STEP_MOTOR/step_motor_app.c:96 | `parse_buffer[length] = '\0'` into a parse buffer of STEP_MOTOR_BUFFER_SIZE (64) bytes (lines 21-22; the same at line 120 for Y) | one UART reception into an empty ring: the callback offers all 64 DMA bytes, the ring accepts 64, the motor task drains `length` = 64 and writes index 64, one past the array | the terminator lands inside the parse buffer, which needs 65 bytes (or draining at most 63); the model's 65-byte parse buffer holds it, and `StepMotor.Axis.Process` ensures the index it writes is inside the buffer for any ring contents | not executed | `StepMotor.FirstReceptionTerminator` | `StepMotor.Axis.Process` |
