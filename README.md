# ATmega328P bare-metal examples, modelled in Dafny

The repository is a set of small bare-metal programs for the ATmega328P
microcontroller (an Arduino Uno). Each program drives the chip through its
memory-mapped 8-bit registers: it blinks an LED, mirrors a button, configures
Timer/Counter1, fades an LED with PWM, dims an LED from a potentiometer, and
reports potentiometer readings over the USART.

This project models the register-access layer and the sequential logic of
those programs:

- `Registers` (`registers.dfy`): the header `avr_atmega328p.h`.
  - The register address constants.
  - `READ_BIT` as a pure function.
  - `GET_ADDR` reads and writes, and the read-modify-write macros `SET_BIT`,
    `UNSET_BIT` and `TOGGLE_BIT`, as methods of the class `RegisterFile`.
  - `RegisterFile` holds the 256-byte register window and a ghost trace of
    every volatile access, in program order.
  - Values the hardware puts into a register enter as injected observations,
    through `RegisterFile.Sample`. These are status flags, the ADC result and
    the input pins.
  - A busy-wait is `RegisterFile.PollBit` over a sequence of observed
    register values.
- `Serial` (`serial.dfy`): the USART code the serial examples share.
  - The baud divisor and the NUL-terminated strings.
  - The radix-10 text that `utoa` writes.
  - The polled transmitter and the bytes it puts on the line (`Sent`).
- `Blink`, `ButtonPolling`, `Timer1`, `PwmFade`, `Adc` with `AdcDimmer`,
  `UartReporter`, `UsartReporter` and `UsartGreeting`: one module per example
  program.
  - Setup code becomes a method that states the exact new register contents
    and the exact accesses.
  - Each `while (1)` body becomes an iteration method.
  - Where the loop carries state, a run of iterations is modelled too:
    `Blink.Run`, `PwmFade.Run` and `UsartReporter.MainLoop`.
  - Lemmas connect these methods to reference definitions:
    - the triangle wave of the fade;
    - the output of a run that reports only changed readings;
    - the exact byte sequence sent on the serial line.

`src/8_i2c.c` contains only USART code, despite its name:
`USART_init`, `USART_write_byte`, `USART_print` and a `main` that sends one
greeting. It has no two-wire (I2C) bus driver and uses none of the TWI
registers the header declares. The model follows the code, so
`UsartGreeting` models a USART greeting and no I2C protocol is modelled.

## Model

| member | source | states |
|---|---|---|
| Registers.IoRegNamesHeaderRegisters | src/1_blink.c:10-14 | `IO_PIN(offset)` (offset + 0x20) names the header's registers: 0x04 is DDRB, 0x05 is PORTB, 0x03 is PINB, and likewise the timer, ADC and USART offsets used by the header-less examples |
| Registers.ReadBitIsBinaryDigit | src/avr_atmega328p.h:28 | `READ_BIT(v, b)` is 0 or 1 and equals (v / 2^b) mod 2 |
| Registers.WithBitSet | src/avr_atmega328p.h:13-16 | the byte `SET_BIT` stores reads 1 at bit b and keeps every other bit |
| Registers.WithBitCleared | src/avr_atmega328p.h:18-21 | the byte `UNSET_BIT` stores reads 0 at bit b and keeps every other bit |
| Registers.WithBitToggled | src/avr_atmega328p.h:23-26 | the byte `TOGGLE_BIT` stores has bit b flipped and every other bit kept |
| Registers.MaskTestIsReadBit | src/2_button_polling.c:24 | the test `(v & (1 << b)) != 0` holds exactly when `READ_BIT(v, b)` is 1 |
| Registers.SetBitIdempotent | src/avr_atmega328p.h:13-16 | `SET_BIT` applied twice stores what it stores once |
| Registers.UnsetBitIdempotent | src/avr_atmega328p.h:18-21 | `UNSET_BIT` applied twice stores what it stores once |
| Registers.ToggleBitTwiceRestores | src/avr_atmega328p.h:23-26 | `TOGGLE_BIT` applied twice restores the original byte |
| Registers.SetBitAccesses | src/avr_atmega328p.h:13-16 | `SET_BIT` is a read of the register followed by a write back to it, and the written value has the bit set |
| Registers.ClockDivisor | src/4_timer.c:25-32 | the clock-select bits CS2..CS0 pick a divisor from {0, 1, 8, 64, 256, 1024}; 1024 exactly when they read 1, 0, 1 |
| Registers.LowByte | src/7_uart.c:78 | `(uint8_t)ubrr` has the value ubrr mod 256 |
| Registers.HighByte | src/7_uart.c:77 | `(uint8_t)(ubrr >> 8)` has the value ubrr / 256 |
| Registers.Word | src/6_adc.c:53 | `lo \| (hi << 8)` in 16 bits has the value lo + 256 * hi |
| Registers.WordOfBytes | src/4_timer.c:37-41 | splitting a 16-bit value into its high and low bytes and joining them gives the value back |
| Registers.BytesOfWord | src/6_adc.c:53 | joining two bytes and splitting the result gives back both bytes |
| Registers.ReplayUntouched | src/avr_atmega328p.h:11 | registers that a run of accesses never names keep their contents |
| Registers.ReplayAppend | src/avr_atmega328p.h:11 | replaying two runs of accesses one after the other is replaying them joined |
| Registers.ReachesIffSomeHit | src/7_usart.c:31-34 | a busy-wait can end exactly when some observed value has the awaited bit value |
| Registers.FirstHit | src/7_usart.c:31-34 | the busy-wait ends at the first observation with the awaited bit value; every earlier one has the other value |
| Registers.RegisterFile.Get | src/avr_atmega328p.h:11 | a `GET_ADDR` read returns the register's contents, changes nothing and records the read |
| Registers.RegisterFile.Sample | src/avr_atmega328p.h:11 | a read of a register that the hardware has just changed returns the new value, stores it and records the read |
| Registers.RegisterFile.Put | src/avr_atmega328p.h:11 | a `GET_ADDR` write stores the value at that address only and records the write |
| Registers.RegisterFile.SetBit | src/avr_atmega328p.h:13-16 | `SET_BIT` replaces exactly that register with `WithBitSet` of its old value; it records the read and then the write |
| Registers.RegisterFile.UnsetBit | src/avr_atmega328p.h:18-21 | `UNSET_BIT` replaces exactly that register with `WithBitCleared` of its old value; it records the read and then the write |
| Registers.RegisterFile.ToggleBit | src/avr_atmega328p.h:23-26 | `TOGGLE_BIT` replaces exactly that register with `WithBitToggled` of its old value; it records the read and then the write |
| Registers.RegisterFile.PollBit | src/7_usart.c:48-50 | a busy-wait on `READ_BIT` reads the register once per observation up to the first hit; the register holds that observation and nothing else changes |
| Serial.UbrrValue | src/7_usart.c:63-72 | ubrr = 16000000 / 16 / 9600 - 1 = 103; its high byte is 0, its low byte 103, and joining them gives 103 |
| Serial.UbrrBaudError | src/7_uart.c:69-72 | the divisor gives 9615 baud, within 1% of the requested 9600 |
| Serial.CString | src/7_usart.c:56-61 | the bytes a string loop visits are those before the first NUL, and they contain no NUL |
| Serial.CStringOfTerminated | src/7_usart.c:56-61 | a NUL-free text followed by a NUL reads back as exactly that text, whatever follows the NUL |
| Serial.GreetingIsAscii | src/7_usart.c:92 | the greeting's 23 bytes are the ASCII codes of "Hello from ATmega328P\r\n" |
| Serial.GreetingLiteral | src/7_usart.c:92 | the greeting literal is NUL-terminated and its C string is the greeting |
| Serial.CrlfLiteral | src/7_usart.c:114 | the "\r\n" literal is NUL-terminated and its C string is CR, LF |
| Serial.DecimalText | src/7_usart.c:110 | the `utoa` radix-10 text is at least one ASCII digit, with a leading '0' only for zero |
| Serial.ParseDecimalText | src/7_usart.c:110 | reading the decimal text back gives the value: no information is lost |
| Serial.U16TextFits | src/7_usart.c:98 | any `uint16_t` has at most five digits |
| Serial.Utoa | src/7_usart.c:110 | after `utoa(v, buf, 10)` the buffer keeps its size, holds a NUL, and its C string is the decimal text of v |
| Serial.SentAppend | src/7_usart.c:56-61 | what two runs of accesses send together is what the first sends followed by what the second sends |
| Serial.SentOfNoData | src/7_usart.c:26-43 | accesses that never write UDR0 send nothing |
| Serial.SentOfTransmitTrace | src/7_usart.c:45-54 | one `USART_transmit` sends exactly its byte |
| Serial.SentOfStringTrace | src/7_usart.c:56-61 | `USART_transmit_string` sends exactly the string's bytes, in order |
| Serial.WritesAfterReadyAppend | src/7_usart.c:56-61 | writing UDR0 only after UDRE0 reads 1 is preserved by joining runs of accesses |
| Serial.TransmitWritesAfterReady | src/7_usart.c:48-53 | `USART_transmit` writes UDR0 immediately after a read of UCSR0A that saw UDRE0 set |
| Serial.StringWritesAfterReady | src/7_usart.c:56-61 | every byte of a string is written only after a read of UCSR0A that saw UDRE0 set |
| Serial.Transmit | src/8_i2c.c:21-28 | `USART_write_byte` / `USART_transmit`: wait for UDRE0, write the byte to UDR0; only UCSR0A and UDR0 change |
| Serial.TransmitString | src/8_i2c.c:30-35 | `USART_print` / `USART_transmit_string`: the accesses are the transmissions of the bytes before the NUL, in order; only UCSR0A and UDR0 change |
| Serial.SendLine | src/7_usart.c:113-114 | the buffer's C string, then "\r\n", touching only UCSR0A and UDR0 |
| Serial.QuietThenLine | src/7_uart.c:96-102 | accesses that send nothing, followed by a line, send exactly the text and "\r\n", each byte after UDRE0 read 1 |
| Serial.LineSendsText | src/7_uart.c:101-102 | a line sends exactly its text followed by "\r\n", each byte after UDRE0 read 1 |
| Blink.Setup | src/1_blink.c:23 | DDRB gets bit 5 set and every other bit and register is kept; the accesses are the read-modify-write of DDRB |
| Blink.Delay | src/1_blink.c:31-32 | the NOP loop ends, with its counter at 0, and touches no register |
| Blink.Step | src/1_blink.c:28-32 | one iteration flips PORTB bit 5, changes nothing else, and reads then writes PORTB |
| Blink.BlinkedLevel | src/1_blink.c:25-33 | after n iterations the LED bit has flipped n times; every other PORTB bit and every other register is unchanged |
| Blink.BlinkPeriod | src/1_blink.c:28 | every two iterations restore all register contents |
| Blink.Run | src/1_blink.c:16-34 | setup and then n iterations leave the contents that n toggles of PORTB bit 5 give |
| ButtonPolling.Directions | src/2_button_polling.c:11-15 | after setup DDRB bit 5 is 1 (output), bit 0 is 0 (input), and the other bits are kept |
| ButtonPolling.Mirror | src/2_button_polling.c:24-30 | after an iteration PORTB bit 5 equals PINB bit 0, and every other PORTB bit is kept |
| ButtonPolling.PollIdempotent | src/2_button_polling.c:17-31 | repeating an iteration with the same PINB changes nothing |
| ButtonPolling.Setup | src/2_button_polling.c:11-15 | only DDRB changes, to its direction settings; two read-modify-writes of DDRB are made |
| ButtonPolling.Step | src/2_button_polling.c:24-30 | one iteration reads PINB, then sets or clears PORTB bit 5; only PINB's observed value and PORTB change |
| Timer1.CompareValueBytes | src/4_timer.c:34-41 | compare_value = 16000000 / 1024 - 1 = 15624 fits 16 bits; its bytes are 0x3D and 0x08, and they join back to it |
| Timer1.ControlSettings | src/4_timer.c:18-32 | TCCR1A = 0x40 (COM1A0) and TCCR1B = 0x0D (WGM12 with CS12 and CS10), which selects clock / 1024 |
| Timer1.ConfiguredTogglesEverySecond | src/4_timer.c:13-41 | after setup OC1A is an output that toggles on match in CTC mode, with (OCR1A + 1) * divisor = 16000000: one match per second; only five registers change |
| Timer1.HighByteWrittenFirst | src/4_timer.c:38-41 | OCR1AH is written before OCR1AL, with the high and the low byte of the compare value respectively |
| Timer1.Setup | src/4_timer.c:13-45 | the program leaves exactly the configured contents and makes exactly the setup accesses, in order |
| PwmFade.ControlSettings | src/5_pwm.c:20-23 | TCCR0A = 0xC3 and TCCR0B = 0x05 (clock / 1024) |
| PwmFade.Next | src/5_pwm.c:36-40 | an iteration adds step to OCR0A in 8 bits, and the step stays the same or is negated |
| PwmFade.NextKeepsSweeping | src/5_pwm.c:35-41 | during the sweep OCR0A moves by exactly +1 or -1 without wrapping, and the direction reverses exactly when the new value is 255 or 0 |
| PwmFade.AfterIsSweeping | src/5_pwm.c:34-40 | every state the loop reaches is on a sweep; the step changes exactly when the new OCR0A is 255 or 0 |
| PwmFade.NextFollowsWave | src/5_pwm.c:36-40 | a state at position n of the triangle wave steps to position n + 1 |
| PwmFade.AfterIsTriangle | src/5_pwm.c:34-44 | after n iterations (OCR0A, step) is the triangle wave of period 510 at position n, with step 1 or 255 |
| PwmFade.SweepPeriod | src/5_pwm.c:34-44 | the fade reaches (255, 255) after 255 + 510k iterations and is back at (0, 1) after 510k |
| PwmFade.DutyNeverJumps | src/5_pwm.c:36-40 | consecutive duty cycles differ by exactly one, so 255 never jumps to 0 |
| PwmFade.Delay | src/5_pwm.c:42-43 | the delay loop ends after 10000 counts and touches no register |
| PwmFade.Setup | src/5_pwm.c:17-34 | DDRD bit 6 is set; TCCR0A = 0xC3, TCCR0B = 0x05 and OCR0A = 0; the state starts at (0, 1) |
| PwmFade.TurnAround | src/5_pwm.c:38-40 | the reversal test reads OCR0A once, and a second time only when it is not 255; it negates step exactly when OCR0A is 255 or 0 |
| PwmFade.Advance | src/5_pwm.c:36 | `OCR0A += step` reads OCR0A and writes back its 8-bit sum with the step |
| PwmFade.Iterate | src/5_pwm.c:35-44 | one iteration takes (OCR0A, step) to `Next` of it and changes no other register |
| PwmFade.Run | src/5_pwm.c:16-44 | setup and then n iterations leave OCR0A and step on the triangle wave at position n, and the rest of the setup in place |
| Adc.AdcDivisor | src/6_adc.c:31-36 | ADPS2..ADPS0 select a divisor from 2 to 128; 128 exactly when all three are set |
| Adc.Settings | src/6_adc.c:27-36 | ADMUX = 0x40 (REFS0, AVcc reference) and ADCSRA = 0x87 (ADEN, divisor 128): a 125 kHz converter clock |
| Adc.SelectChannel | src/7_uart.c:33 | the high nibble of ADMUX is kept and the low nibble becomes pin & 0x0F |
| Adc.SelectChannelIdempotent | src/7_uart.c:33 | selecting the same channel twice equals selecting it once |
| Adc.ChannelZeroKeepsReference | src/7_uart.c:25-33 | selecting channel 0 after `ADC_init` keeps ADMUX = 0x40, so the AVcc reference is kept |
| Adc.TenBitResult | src/6_adc.c:51-53 | with ADCH at most 3, the reassembled reading is at most 1023 |
| Adc.Init | src/7_uart.c:25-29 | `ADC_init` writes ADMUX = 0x40 and then ADCSRA = 0x87, and nothing else |
| Adc.StartAndWait | src/6_adc.c:47-50 | ADSC is set by read-modify-write, then ADCSRA is read until ADSC reads 0; only ADCSRA changes |
| Adc.ReadResult | src/6_adc.c:51-53 | ADCL is read, then ADCH; the result is ADCL + 256 * ADCH |
| Adc.Convert | src/6_adc.c:47-53 | one conversion: start, wait, then the result ADCL + 256 * ADCH, with exactly those accesses |
| AdcDimmer.TimerSettings | src/6_adc.c:38-40 | TCCR0A = 0x83 and TCCR0B = 0x05 (clock / 1024) |
| AdcDimmer.DutyCycle | src/6_adc.c:59 | duty = adc * 255 / 1023 rounded down: duty * 1023 <= adc * 255 < (duty + 1) * 1023 |
| AdcDimmer.DutyCycleFits | src/6_adc.c:59 | adc * 255 fits 32 bits, and the quotient fits 16 bits |
| AdcDimmer.DutyCycleRange | src/6_adc.c:55-59 | a 10-bit reading maps into 0..255; it maps to 0 exactly when adc <= 4, and to 255 exactly when adc = 1023 |
| AdcDimmer.DutyCycleMonotone | src/6_adc.c:59 | a larger reading never gives a smaller duty cycle |
| AdcDimmer.StoredDutyIsExact | src/6_adc.c:59-61 | storing the duty cycle in the 8-bit OCR0A loses no bits |
| AdcDimmer.Setup | src/6_adc.c:24-40 | DDRD bit 6 is set, and ADMUX, ADCSRA, TCCR0A and TCCR0B are written in source order; nothing else changes |
| AdcDimmer.Step | src/6_adc.c:42-62 | one iteration converts and stores the scaled reading in OCR0A, with exactly those accesses |
| AdcDimmer.StepStoresScaledReading | src/6_adc.c:53-61 | for a 10-bit reading, OCR0A ends up holding exactly adc * 255 / 1023 |
| UartReporter.UsartSettings | src/7_uart.c:80-88 | UCSR0B = 0x08 enables the transmitter alone; UCSR0C = 0x06 selects 8-bit characters |
| UartReporter.BufferHoldsAnyReading | src/7_uart.c:92-98 | the 17-byte buffer holds the decimal text of any `uint16_t` together with its NUL |
| UartReporter.AdcRead | src/7_uart.c:31-42 | `ADC_read(pin)` selects the channel, starts a conversion, waits until ADSC reads 0 and returns ADCL + 256 * ADCH |
| UartReporter.ReadSendsNothing | src/7_uart.c:31-42 | `ADC_read` never writes UDR0 |
| UartReporter.Configure | src/7_uart.c:66-88 | `ADC_init`, then the divisor high byte before the low byte, then UCSR0B and UCSR0C, in that order |
| UartReporter.Start | src/7_uart.c:66-90 | after the configuration and the greeting, the six configured registers hold their settings, and only UCSR0A and UDR0 also change |
| UartReporter.GreetingKeepsConfiguration | src/7_uart.c:83-90 | sending the greeting does not disturb the configuration |
| UartReporter.StartSendsGreeting | src/7_uart.c:66-90 | the start of `main` sends exactly the greeting, each byte after UDRE0 read 1 |
| UartReporter.ConfigurationThenText | src/7_uart.c:66-90 | a text sent after the configuration writes is sent exactly |
| UartReporter.ConfigurationSendsNothing | src/7_uart.c:66-88 | the configuration writes send nothing |
| UartReporter.Step | src/7_uart.c:94-102 | one iteration returns ADCL + 256 * ADCH, leaves its `utoa` text in the buffer and sends it with "\r\n"; only the ADC and USART data registers change |
| UartReporter.IterationSendsReading | src/7_uart.c:94-102 | each iteration sends exactly the reading's decimal text followed by "\r\n", which reads back as the reading |
| UsartReporter.AdcsraAfterInit | src/7_usart.c:11-23 | `ADC_init` sets ADCSRA bits 0, 1, 2, 5, 7 and 6 and keeps bits 3 and 4 |
| UsartReporter.AdcInit | src/7_usart.c:7-24 | `ADC_init` makes seven read-modify-writes in source order, ADMUX first; only ADMUX and ADCSRA change |
| UsartReporter.AdcInitConfigures | src/7_usart.c:7-24 | after `ADC_init`: AVcc reference, converter enabled, auto trigger on, a conversion started, and a 125 kHz clock |
| UsartReporter.AdcInitSendsNothing | src/7_usart.c:7-24 | `ADC_init` sends nothing |
| UsartReporter.ReadResult | src/7_usart.c:36-40 | ADCL is read before ADCH, the value is ADCL + 256 * ADCH, then `SET_BIT` writes a 1 to ADIF |
| UsartReporter.Convert | src/7_usart.c:31-40 | wait until ADIF reads 1, read the result, and write a 1 to ADIF in the ADCSRA value last seen |
| UsartReporter.AdcRead | src/7_usart.c:26-43 | `ADC_read(pin)` writes (ADMUX & 0xF0) \| (pin & 0x0F) to ADMUX and returns ADCL + 256 * ADCH; exact new contents and accesses |
| UsartReporter.ReadWaitsForConversion | src/7_usart.c:26-43 | every read before ADCL is of ADCSRA with ADIF 0, except the last, which sees ADIF 1; ADCL comes before ADCH; the final write puts a 1 in ADIF |
| UsartReporter.ReadSendsNothing | src/7_usart.c:26-43 | `ADC_read` never writes UDR0 |
| UsartReporter.UsartSetup | src/7_usart.c:68-90 | UBRR0L gets ubrr mod 256 and UBRR0H gets ubrr >> 8, then DOR0, TXEN0, UCSZ00 and UCSZ01 are set by read-modify-write |
| UsartReporter.UsartSetupSendsNothing | src/7_usart.c:68-90 | the USART set-up sends nothing |
| UsartReporter.Start | src/7_usart.c:65-95 | the USART set-up, the greeting, then `ADC_init`; the configured registers hold their settings and only UCSR0A and UDR0 also change |
| UsartReporter.StartSendsGreeting | src/7_usart.c:65-95 | the start of `main` sends exactly the greeting, each byte after UDRE0 read 1 |
| UsartReporter.ReportIffChanged | src/7_usart.c:105-115 | an iteration sends something exactly when the reading differs from `last_pot_val`; it then sends digits and "\r\n" that read back as the reading |
| UsartReporter.ReportsSnoc | src/7_usart.c:101-116 | the output of one more iteration is appended, compared against the last reading |
| UsartReporter.ReportsSilentIffSteady | src/7_usart.c:101-116 | a run sends nothing exactly when every reading equals the initial `last_pot_val` |
| UsartReporter.SendReading | src/7_usart.c:109-114 | `utoa` into the buffer, then the text and "\r\n"; ADMUX and every non-transmitter register are kept |
| UsartReporter.Iterate | src/7_usart.c:101-116 | `last_pot_val` becomes the reading; the buffer changes only when the reading changed; the accesses are the read plus, if the reading changed, the line |
| UsartReporter.IterationSendsReport | src/7_usart.c:103-115 | an iteration sends exactly its report, each byte after UDRE0 read 1 |
| UsartReporter.RunSendsReports | src/7_usart.c:100-116 | the first n iterations send exactly the reports of the readings that changed |
| UsartReporter.LoopSendsReports | src/7_usart.c:100-116 | a whole run sends exactly the reports of the readings that changed, each byte after UDRE0 read 1 |
| UsartReporter.MainLoop | src/7_usart.c:100-116 | starting from `last_pot_val = 0`, the loop ends holding the last reading, changes only the ADC and transmitter registers, and makes exactly the rounds' accesses |
| UsartGreeting.UsartInit | src/8_i2c.c:8-19 | UBRR0L gets UBRR & 0xFF and UBRR0H gets UBRR >> 8, then UCSR0C bits 1 and 2 and UCSR0B bit 3 are set by read-modify-write |
| UsartGreeting.UsartInitConfigures | src/8_i2c.c:5-19 | the divisor bytes join to UBRR = 103, 8-bit characters, transmitter on, and every other bit of UCSR0B and UCSR0C kept |
| UsartGreeting.InitSendsNothing | src/8_i2c.c:8-19 | `USART_init` sends nothing |
| UsartGreeting.Greet | src/8_i2c.c:37-46 | `main` up to its idle loop: the USART configured, every other register except UCSR0A and UDR0 kept, exactly the init and greeting accesses |
| UsartGreeting.MainSendsGreeting | src/8_i2c.c:37-46 | `main` sends the 23-byte greeting exactly once, each byte after UDRE0 read 1 |

## Left out

- `src/3_interrupt.c` and the `ISR` and vector macros (`src/avr_atmega328p.h:42-47`) are asynchronous interrupt code and linker attributes, so they are not modelled.
- Real time is not modelled. The NOP delay loops are terminating loops that touch no register. Baud, PWM and timer waveforms are described by their divisors only.
- The hardware's own behaviour enters as parameters:
  - ADSC clearing, ADIF and UDRE0 setting, the conversion result and the PINB level are injected observations.
  - The model does not compute them.
  - Each busy-wait requires that its observations eventually show the awaited bit. This rules out the unbounded hang the source has when the hardware never answers; the source has no timeout.
- UsartReporter.ReadResult: the write-one-to-clear of ADIF is modelled as the value written. The new ADCSRA contents are the written value, with a 1 in bit 4, and not the cleared flag the hardware would show.
- Adc.StartAndWait: the read half of `ADCSRA |= (1 << 6)` (`src/6_adc.c:47`, `src/7_uart.c:36`) is a plain read of the value last stored. The model assumes the hardware does not change ADCSRA between the previous access and that read.
- UsartReporter.ReadResult: the read half of `SET_BIT(ADCSRA, 4)` (`src/7_usart.c:40`) is assumed to see the ADCSRA value that ended the ADIF wait. This is realistic, because ADIF stays set until it is cleared. The same assumption gives the final ADCSRA of UsartReporter.Convert and UsartReporter.AdcRead.
- UsartReporter.ReadWaitsForConversion: its clause that the SET_BIT read of ADCSRA sees the value the last poll saw rests on the assumption just described.
- UsartReporter.UsartSetup: the read half of `SET_BIT(UCSR0A, 3)` (`src/7_usart.c:77`) sees the value last stored. The hardware's own changes to the flags in UCSR0A between accesses are not modelled.
- UsartReporter.AdcInit: the read halves of the SET_BITs on ADCSRA (`src/7_usart.c:13-23`) see the value last stored. The hardware's own changes to ADCSRA between accesses are not modelled.
- `utoa` comes from the C library and its source is not part of this model. Serial.DecimalText gives its radix-10 output, and Serial.Utoa gives its effect on the buffer.
- C leaves the order of the two reads in `ADCL | ADCH << 8` (`src/6_adc.c:53`, `src/7_uart.c:41`) unspecified. The model reads ADCL first, the order `src/7_usart.c:36-37` writes out and the datasheet requires.
- In `GET_ADDR(ADCH) << 8` (`src/7_usart.c:37`) the byte is promoted to the 16-bit signed `int` of avr-gcc, so an ADCH of 0x80 or more would shift past the largest `int`, which C leaves undefined. This cannot happen there: `ADC_init` sets only REFS0 in ADMUX, so ADLAR stays 0, the result is right-adjusted and ADCH is at most 3. The model does not represent this undefined case. `Registers.Word` gives lo + 256 * hi for every pair of bytes, which is what avr-gcc computes. `src/6_adc.c:53` and `src/7_uart.c:41` cast to `uint16_t` before the shift, so no promotion to `int` happens there.
- Serial.TransmitString states the accesses and that only UCSR0A and UDR0 change. It does not state their final contents, which follow from the trace through `RegisterFile.Valid`.
- The endless `while (1)` loops are modelled over finitely many iterations. `Blink.Run`, `PwmFade.Run` and `UsartReporter.MainLoop` take an iteration count or a list of rounds. `ButtonPolling.Step`, `AdcDimmer.Step` and `UartReporter.Step` are single iterations.
- The idle loops of `src/4_timer.c` and `src/8_i2c.c` touch nothing, so Timer1.Setup and UsartGreeting.Greet end where those loops begin.
- The TWI register constants are declared but used by no program, and there is no I2C protocol in the code.
- The three copies of the transmit and string routines (`src/7_uart.c`, `src/7_usart.c`, `src/8_i2c.c`) behave identically and are modelled once, in `Serial`.
